/** The backend of the asynchronous logger: what a worker does with each message, and what the
    sinks and the flush promises see when one worker serves a pool whose posters block. */
module AsyncLogging {
  import opened Options
  import opened ThreadPool
  import Shutdown
  import BQ = BlockingQueue

  const OFF := 6  // the level above all others

  // The minimum level of each sink, and the level from which a message also flushes them.
  datatype Logger = Logger(sinks: seq<nat>, flushLevel: nat)

  datatype Effect =
    | Logged(sink: nat, level: nat, text: string)
    | Flushed(sink: nat)
    | PromiseSet(promise: nat)

  // The first k sinks offered a message, or flushed.
  function LoggedTo(lg: Logger, level: nat, text: string, k: nat): seq<Effect>
    requires k <= |lg.sinks|
    decreases k
  {
    if k == 0 then []
    else if level >= lg.sinks[k - 1] then LoggedTo(lg, level, text, k - 1) + [Logged(k - 1, level, text)]
    else LoggedTo(lg, level, text, k - 1)
  }

  function FlushedTo(lg: Logger, k: nat): seq<Effect>
    requires k <= |lg.sinks|
  {
    if k == 0 then [] else FlushedTo(lg, k - 1) + [Flushed(k - 1)]
  }

  predicate ShouldFlush(lg: Logger, level: nat) {
    level >= lg.flushLevel && level != OFF
  }

  function EffectsOf(lg: Logger, m: Msg): seq<Effect> {
    match m
    case Log(level, text) =>
      var logged := LoggedTo(lg, level, text, |lg.sinks|);
      if ShouldFlush(lg, level) then logged + FlushedTo(lg, |lg.sinks|) else logged
    case Flush(promise) => FlushedTo(lg, |lg.sinks|) + [PromiseSet(promise)]
    case Terminate => []
  }

  function EffectsOfAll(lg: Logger, ms: seq<Msg>): seq<Effect> {
    if ms == [] then [] else EffectsOfAll(lg, ms[..|ms| - 1]) + EffectsOf(lg, ms[|ms| - 1])
  }

  class AsyncLogger {
    const config: Logger
    var io: seq<Effect>  // everything done to the sinks and promises so far

    constructor (config: Logger)
      ensures this.config == config && io == []
    {
      this.config := config;
      io := [];
    }

    method BackendSinkIt(level: nat, text: string)
      modifies this
      ensures io == old(io) + EffectsOf(config, Log(level, text))
    {
      var i := 0;
      while i < |config.sinks|
        invariant 0 <= i <= |config.sinks|
        invariant io == old(io) + LoggedTo(config, level, text, i)
      {
        if level >= config.sinks[i] {
          io := io + [Logged(i, level, text)];
        }
        i := i + 1;
      }
      if ShouldFlush(config, level) {
        BackendFlush();
      }
    }

    method BackendFlush()
      modifies this
      ensures io == old(io) + FlushedTo(config, |config.sinks|)
    {
      var i := 0;
      while i < |config.sinks|
        invariant 0 <= i <= |config.sinks|
        invariant io == old(io) + FlushedTo(config, i)
      {
        io := io + [Flushed(i)];
        i := i + 1;
      }
    }

    // The part of process_next_msg_ after the message has been dequeued.
    method ProcessMsg(m: Msg) returns (active: bool)
      modifies this
      ensures io == old(io) + EffectsOf(config, m)
      ensures active <==> m != Terminate
    {
      match m {
        case Log(level, text) =>
          BackendSinkIt(level, text);
          active := true;
        case Flush(promise) =>
          BackendFlush();
          io := io + [PromiseSet(promise)];
          active := true;
        case Terminate =>
          active := false;
      }
    }
  }

  // ---------- what one sink sees ----------

  function SinkLog(es: seq<Effect>, k: nat): seq<(nat, string)> {
    if es == [] then []
    else
      var e := es[|es| - 1];
      SinkLog(es[..|es| - 1], k) + if e.Logged? && e.sink == k then [(e.level, e.text)] else []
  }

  // The log messages at or above a level, in order.
  function Accepted(ms: seq<Msg>, threshold: nat): seq<(nat, string)> {
    if ms == [] then []
    else
      var m := ms[|ms| - 1];
      Accepted(ms[..|ms| - 1], threshold) + if m.Log? && m.level >= threshold then [(m.level, m.text)] else []
  }

  lemma {:induction false} SinkLogConcat(a: seq<Effect>, b: seq<Effect>, k: nat)
    ensures SinkLog(a + b, k) == SinkLog(a, k) + SinkLog(b, k)
  {
    if b == [] {
      assert a + b == a;
    } else {
      assert (a + b)[..|a + b| - 1] == a + b[..|b| - 1];
      SinkLogConcat(a, b[..|b| - 1], k);
    }
  }

  // An effect at the end that is not a message to sink k.
  lemma NotForSink(es: seq<Effect>, e: Effect, k: nat)
    requires !(e.Logged? && e.sink == k)
    ensures SinkLog(es + [e], k) == SinkLog(es, k)
  {
    assert (es + [e])[..|es|] == es;
    assert SinkLog(es, k) + [] == SinkLog(es, k);
  }

  lemma FirstForSink(es: seq<Effect>, e: Effect, k: nat)
    requires e.Logged? && e.sink == k && SinkLog(es, k) == []
    ensures SinkLog(es + [e], k) == [(e.level, e.text)]
  {
    assert (es + [e])[..|es|] == es;
    assert [] + [(e.level, e.text)] == [(e.level, e.text)];
  }

  lemma {:induction false} FlushLogsNothing(lg: Logger, n: nat, k: nat)
    requires n <= |lg.sinks|
    ensures SinkLog(FlushedTo(lg, n), k) == []
  {
    if n > 0 {
      FlushLogsNothing(lg, n - 1, k);
      NotForSink(FlushedTo(lg, n - 1), Flushed(n - 1), k);
    }
  }

  lemma {:induction false} OffersBefore(lg: Logger, level: nat, text: string, n: nat, k: nat)
    requires n <= k < |lg.sinks|
    ensures SinkLog(LoggedTo(lg, level, text, n), k) == []
    decreases n
  {
    if n > 0 {
      OffersBefore(lg, level, text, n - 1, k);
      if level >= lg.sinks[n - 1] {
        NotForSink(LoggedTo(lg, level, text, n - 1), Logged(n - 1, level, text), k);
      }
    }
  }

  lemma {:induction false} OneOffer(lg: Logger, level: nat, text: string, n: nat, k: nat)
    requires k < n <= |lg.sinks|
    ensures SinkLog(LoggedTo(lg, level, text, n), k) == if level >= lg.sinks[k] then [(level, text)] else []
    decreases n
  {
    if n == k + 1 {
      OffersBefore(lg, level, text, k, k);
      if level >= lg.sinks[k] {
        FirstForSink(LoggedTo(lg, level, text, k), Logged(k, level, text), k);
      }
    } else {
      OneOffer(lg, level, text, n - 1, k);
      if level >= lg.sinks[n - 1] {
        NotForSink(LoggedTo(lg, level, text, n - 1), Logged(n - 1, level, text), k);
      }
    }
  }

  lemma OneMessage(lg: Logger, m: Msg, k: nat)
    requires k < |lg.sinks|
    ensures SinkLog(EffectsOf(lg, m), k) == if m.Log? && m.level >= lg.sinks[k] then [(m.level, m.text)] else []
  {
    FlushLogsNothing(lg, |lg.sinks|, k);
    match m
    case Log(level, text) =>
      OneOffer(lg, level, text, |lg.sinks|, k);
      SinkLogConcat(LoggedTo(lg, level, text, |lg.sinks|), FlushedTo(lg, |lg.sinks|), k);
    case Flush(promise) =>
      NotForSink(FlushedTo(lg, |lg.sinks|), PromiseSet(promise), k);
    case Terminate =>
  }

  // Processing messages in a given order hands each sink exactly those its level accepts, in
  // that order.
  lemma {:induction false} SinkSeesAccepted(lg: Logger, ms: seq<Msg>, k: nat)
    requires k < |lg.sinks|
    ensures SinkLog(EffectsOfAll(lg, ms), k) == Accepted(ms, lg.sinks[k])
  {
    if ms != [] {
      SinkSeesAccepted(lg, ms[..|ms| - 1], k);
      OneMessage(lg, ms[|ms| - 1], k);
      SinkLogConcat(EffectsOfAll(lg, ms[..|ms| - 1]), EffectsOf(lg, ms[|ms| - 1]), k);
    }
  }

  lemma {:induction false} LoggingFlushesNothing(lg: Logger, level: nat, text: string, n: nat, k: nat)
    requires n <= |lg.sinks|
    ensures Flushed(k) !in LoggedTo(lg, level, text, n)
  {
    if n > 0 {
      LoggingFlushesNothing(lg, level, text, n - 1, k);
    }
  }

  lemma {:induction false} FlushReaches(lg: Logger, n: nat, k: nat)
    requires n <= |lg.sinks|
    ensures Flushed(k) in FlushedTo(lg, n) <==> k < n
  {
    if n > 0 {
      FlushReaches(lg, n - 1, k);
    }
  }

  // A log message flushes a sink exactly if its level is at or above the flush level and not off;
  // a flush message flushes every sink.
  lemma FlushedByLevel(lg: Logger, m: Msg, k: nat)
    requires k < |lg.sinks|
    ensures Flushed(k) in EffectsOf(lg, m) <==>
              m.Flush? || (m.Log? && m.level >= lg.flushLevel && m.level != 6)
  {
    FlushReaches(lg, |lg.sinks|, k);
    if m.Log? {
      LoggingFlushesNothing(lg, m.level, m.text, |lg.sinks|, k);
    }
  }

  // ---------- the order of the effects of one message ----------

  ghost predicate LogsRising(es: seq<Effect>, n: nat) {
    && (forall i :: 0 <= i < |es| ==> es[i].Logged? && es[i].sink < n)
    && (forall i, j :: 0 <= i < j < |es| ==> es[i].sink < es[j].sink)
  }

  lemma NextLog(es: seq<Effect>, n: nat, e: Effect)
    requires LogsRising(es, n) && e.Logged? && e.sink == n
    ensures LogsRising(es, n + 1) && LogsRising(es + [e], n + 1)
  {
    forall i | 0 <= i < |es| ensures (es + [e])[i] == es[i] {
    }
  }

  lemma {:induction false} LoggedInOrder(lg: Logger, level: nat, text: string, n: nat)
    requires n <= |lg.sinks|
    ensures LogsRising(LoggedTo(lg, level, text, n), n)
    decreases n
  {
    if n > 0 {
      LoggedInOrder(lg, level, text, n - 1);
      NextLog(LoggedTo(lg, level, text, n - 1), n - 1, Logged(n - 1, level, text));
    }
  }

  lemma {:induction false} FlushedInOrder(lg: Logger, n: nat)
    requires n <= |lg.sinks|
    ensures |FlushedTo(lg, n)| == n && forall i :: 0 <= i < n ==> FlushedTo(lg, n)[i] == Flushed(i)
  {
    if n > 0 {
      FlushedInOrder(lg, n - 1);
    }
  }

  // What has to come first among the effects of a message: the sinks are served in their order,
  // all of them are given the message before the first one is flushed, and a promise is last.
  predicate Before(a: Effect, b: Effect) {
    match (a, b)
    case (Logged(s, _, _), Logged(t, _, _)) => s < t
    case (Flushed(s), Flushed(t)) => s < t
    case (Logged(_, _, _), _) => true
    case (Flushed(_), PromiseSet(_)) => true
    case (_, _) => false
  }

  lemma EffectsInOrder(lg: Logger, m: Msg, i: nat, j: nat)
    requires i < j < |EffectsOf(lg, m)|
    ensures Before(EffectsOf(lg, m)[i], EffectsOf(lg, m)[j])
  {
    var n := |lg.sinks|;
    FlushedInOrder(lg, n);
    match m
    case Log(level, text) =>
      LoggedInOrder(lg, level, text, n);
      var logged, flushed := LoggedTo(lg, level, text, n), FlushedTo(lg, n);
      if ShouldFlush(lg, level) {
        assert (logged + flushed)[i] == if i < |logged| then logged[i] else flushed[i - |logged|];
        assert (logged + flushed)[j] == if j < |logged| then logged[j] else flushed[j - |logged|];
      }
    case Flush(promise) =>
    case Terminate =>
  }

  // ---------- flush promises ----------

  function TimesSet(es: seq<Effect>, promise: nat): nat {
    if es == [] then 0 else TimesSet(es[..|es| - 1], promise) + BQ.Ind(es[|es| - 1] == PromiseSet(promise))
  }

  function FlushRequests(ms: seq<Msg>, promise: nat): nat {
    if ms == [] then 0 else FlushRequests(ms[..|ms| - 1], promise) + BQ.Ind(ms[|ms| - 1] == Flush(promise))
  }

  lemma {:induction false} TimesSetConcat(a: seq<Effect>, b: seq<Effect>, promise: nat)
    ensures TimesSet(a + b, promise) == TimesSet(a, promise) + TimesSet(b, promise)
  {
    if b == [] {
      assert a + b == a;
    } else {
      assert (a + b)[..|a + b| - 1] == a + b[..|b| - 1];
      TimesSetConcat(a, b[..|b| - 1], promise);
    }
  }

  predicate NoPromise(es: seq<Effect>) {
    forall e :: 0 <= e < |es| ==> !es[e].PromiseSet?
  }

  lemma {:induction false} NoPromiseInside(es: seq<Effect>, promise: nat)
    requires NoPromise(es)
    ensures TimesSet(es, promise) == 0
  {
    if es != [] {
      NoPromiseInside(es[..|es| - 1], promise);
    }
  }

  lemma {:induction false} FlushingSetsNothing(lg: Logger, n: nat)
    requires n <= |lg.sinks|
    ensures NoPromise(FlushedTo(lg, n))
  {
    if n > 0 {
      FlushingSetsNothing(lg, n - 1);
    }
  }

  lemma {:induction false} LoggingSetsNothing(lg: Logger, level: nat, text: string, n: nat)
    requires n <= |lg.sinks|
    ensures NoPromise(LoggedTo(lg, level, text, n))
  {
    if n > 0 {
      LoggingSetsNothing(lg, level, text, n - 1);
    }
  }

  // Only a flush message sets a promise: its own, as its last effect.
  lemma PromiseComesLast(lg: Logger, m: Msg)
    ensures var es := EffectsOf(lg, m);
            if m.Flush? then es != [] && NoPromise(es[..|es| - 1]) && es[|es| - 1] == PromiseSet(m.promise)
            else NoPromise(es)
  {
    FlushingSetsNothing(lg, |lg.sinks|);
    match m
    case Log(level, text) => LoggingSetsNothing(lg, level, text, |lg.sinks|);
    case Flush(promise) => assert EffectsOf(lg, m)[..|lg.sinks|] == FlushedTo(lg, |lg.sinks|) by { FlushedInOrder(lg, |lg.sinks|); }
    case Terminate =>
  }

  lemma OneFlush(lg: Logger, m: Msg, promise: nat)
    ensures TimesSet(EffectsOf(lg, m), promise) == BQ.Ind(m == Flush(promise))
  {
    PromiseComesLast(lg, m);
    var es := EffectsOf(lg, m);
    if m.Flush? {
      NoPromiseInside(es[..|es| - 1], promise);
    } else {
      NoPromiseInside(es, promise);
    }
  }

  lemma {:induction false} PromisesSetOnce(lg: Logger, ms: seq<Msg>, promise: nat)
    ensures TimesSet(EffectsOfAll(lg, ms), promise) == FlushRequests(ms, promise)
  {
    if ms != [] {
      PromisesSetOnce(lg, ms[..|ms| - 1], promise);
      OneFlush(lg, ms[|ms| - 1], promise);
      TimesSetConcat(EffectsOfAll(lg, ms[..|ms| - 1]), EffectsOf(lg, ms[|ms| - 1]), promise);
    }
  }

  // At the moment a promise is set, the sinks have been handed all the messages before the
  // flush that carries it.
  lemma {:induction false} PromiseAfterLogs(lg: Logger, ms: seq<Msg>, e: nat) returns (i: nat)
    requires e < |EffectsOfAll(lg, ms)| && EffectsOfAll(lg, ms)[e].PromiseSet?
    ensures i < |ms| && ms[i] == Flush(EffectsOfAll(lg, ms)[e].promise)
    ensures forall k :: 0 <= k < |lg.sinks| ==>
              SinkLog(EffectsOfAll(lg, ms)[..e], k) == Accepted(ms[..i], lg.sinks[k])
  {
    var front, m := ms[..|ms| - 1], ms[|ms| - 1];
    var before := EffectsOfAll(lg, front);
    if e < |before| {
      i := PromiseAfterLogs(lg, front, e);
      assert EffectsOfAll(lg, ms)[..e] == before[..e];
      assert front[..i] == ms[..i];
    } else {
      i := |ms| - 1;
      PromiseComesLast(lg, m);
      assert EffectsOf(lg, m)[e - |before|] == EffectsOfAll(lg, ms)[e];
      assert m.Flush? && e == |EffectsOfAll(lg, ms)| - 1;
      forall k | 0 <= k < |lg.sinks|
        ensures SinkLog(EffectsOfAll(lg, ms)[..e], k) == Accepted(ms[..i], lg.sinks[k])
      {
        var flushed := FlushedTo(lg, |lg.sinks|);
        assert EffectsOfAll(lg, ms)[..e] == before + flushed;
        SinkLogConcat(before, flushed, k);
        FlushLogsNothing(lg, |lg.sinks|, k);
        SinkSeesAccepted(lg, front, k);
      }
    }
  }

  // ---------- one worker, blocking posters ----------

  ghost predicate BlockingOnly(ls: seq<Label>) {
    forall i :: 0 <= i < |ls| && ls[i].Queue? && ls[i].l.Call? ==>
      !ls[i].l.op.EnqueueNowait? && !ls[i].l.op.EnqueueIfHaveRoom?
  }

  // A single worker processes messages in the order in which they were pushed.
  ghost predicate InTurn(p: Pool) {
    && |p.workers| == 1 && p.lost == {} && BQ.NoLossy(p.bq.pcs)
    && (forall j :: 0 <= j < |p.handled| ==> p.handled[j] == j)
    && match p.workers[0]
       case Fetching => p.Gone() == |p.handled|
       case Holding(i) => i == |p.handled| && p.Gone() == i + 1
       case _ => p.Gone() == |p.handled| + 1
  }

  lemma PushKeepsTurn(p: Pool, l: BQ.Label<Msg>)
    requires Inv(p) && InTurn(p) && Enabled(p, Queue(l)) && l.Push?
    requires BQ.NoLossy(BQ.After(p.bq, l).pcs)
    ensures InTurn(After(p, Queue(l)))
  {
    assert BQ.NeedsRoom(p.bq.pcs[l.t]);
  }

  lemma ProcessKeepsTurn(p: Pool, w: nat)
    requires Inv(p) && InTurn(p) && Enabled(p, Process(w))
    ensures InTurn(After(p, Process(w)))
  {
  }

  lemma TakeKeepsTurn(p: Pool, l: BQ.Label<Msg>)
    requires Inv(p) && InTurn(p) && Enabled(p, Queue(l)) && l.Take?
    requires BQ.NoLossy(BQ.After(p.bq, l).pcs)
    ensures InTurn(After(p, Queue(l)))
  {
    assert WorkerAt(p.bq.pcs[l.t], p.workers[l.t]);
  }

  lemma StepKeepsTurn(p: Pool, l: Label)
    requires Inv(p) && InTurn(p) && Enabled(p, l)
    requires l.Queue? && l.l.Call? ==> !l.l.op.EnqueueNowait? && !l.l.op.EnqueueIfHaveRoom?
    ensures InTurn(After(p, l))
  {
    if l.Queue? {
      BQ.BlockingStaysBlocking(p.bq, l.l);
      if l.l.Take? {
        TakeKeepsTurn(p, l.l);
      } else if l.l.Push? {
        PushKeepsTurn(p, l.l);
      } else {
        var p' := After(p, l);
        assert p'.workers == p.workers && p'.handled == p.handled && p'.lost == p.lost && p'.Gone() == p.Gone();
      }
    } else if l.Process? {
      ProcessKeepsTurn(p, l.w);
    }
  }

  lemma {:induction false} RunsInTurn(p0: Pool, capacity: nat, ls: seq<Label>, p: Pool)
    requires Initial(p0, capacity) && |p0.workers| == 1
    requires Exec(p0, ls) == Some(p) && BlockingOnly(ls)
    ensures Inv(p) && InTurn(p)
  {
    RunsKeepInv(p0, capacity, ls, p);
    if ls != [] {
      var front, l := ls[..|ls| - 1], ls[|ls| - 1];
      var m := Exec(p0, front).value;
      RunsInTurn(p0, capacity, front, m);
      StepKeepsTurn(m, l);
    }
  }

  // The messages processed so far, in the order of processing; in every run all positions exist.
  ghost function Processed(p: Pool): seq<Msg> {
    seq(|p.handled|, j requires 0 <= j < |p.handled| =>
      if p.handled[j] < |p.pushed| then p.pushed[p.handled[j]] else Terminate)
  }

  lemma ProcessedIsPrefix(p: Pool)
    requires Inv(p) && InTurn(p)
    ensures |p.handled| <= |p.pushed| && Processed(p) == p.pushed[..|p.handled|]
  {
  }

  // With one worker and blocking posters, each sink has seen exactly the messages its level
  // accepts among the first |handled| posted, in post order; every promise was set as often as
  // those messages ask for it.
  lemma SingleWorkerDelivers(p0: Pool, capacity: nat, ls: seq<Label>, p: Pool, lg: Logger)
    requires Initial(p0, capacity) && |p0.workers| == 1
    requires Exec(p0, ls) == Some(p) && BlockingOnly(ls)
    ensures Inv(p) && |p.handled| <= |p.pushed|
    ensures var es := EffectsOfAll(lg, Processed(p));
            && (forall k :: 0 <= k < |lg.sinks| ==> SinkLog(es, k) == Accepted(p.pushed[..|p.handled|], lg.sinks[k]))
            && (forall promise :: TimesSet(es, promise) == FlushRequests(p.pushed[..|p.handled|], promise))
  {
    RunsInTurn(p0, capacity, ls, p);
    ProcessedIsPrefix(p);
    forall k | 0 <= k < |lg.sinks|
      ensures SinkLog(EffectsOfAll(lg, Processed(p)), k) == Accepted(p.pushed[..|p.handled|], lg.sinks[k])
    {
      SinkSeesAccepted(lg, Processed(p), k);
    }
    forall promise
      ensures TimesSet(EffectsOfAll(lg, Processed(p)), promise) == FlushRequests(p.pushed[..|p.handled|], promise)
    {
      PromisesSetOnce(lg, Processed(p), promise);
    }
  }

  lemma {:induction false} BlockingQueueRun(ls: seq<Label>)
    requires BlockingOnly(ls)
    ensures BQ.BlockingOnly(QueueRun(ls))
  {
    if ls != [] {
      BlockingQueueRun(ls[..|ls| - 1]);
      assert ls[|ls| - 1] == ls[|ls| - 1];
    }
  }

  // The pushes are in post order: if posters block, what a thread has posted is, in the order of
  // its calls, its part of the pushes, followed by at most one message it is still posting.
  lemma PushesArePosts(p0: Pool, capacity: nat, ls: seq<Label>, p: Pool, t: nat)
    requires Initial(p0, capacity) && Exec(p0, ls) == Some(p) && BlockingOnly(ls) && t < |p.bq.pcs|
    ensures var run := QueueRun(ls);
            && |BQ.Triers(run)| == |p.pushed|
            && BQ.Posted(run, t) == BQ.Select(p.pushed, BQ.Triers(run), t) + BQ.Pending(p.bq.pcs[t])
  {
    QueueRunIsRun(p0, capacity, ls, p);
    BlockingQueueRun(ls);
    BQ.BlockingLosesNothing(p0.bq, capacity, QueueRun(ls), p.bq);
    BQ.TriedArePushed(QueueRun(ls));
    BQ.PostedInOrder(p0.bq, capacity, QueueRun(ls), p.bq, t);
  }

  lemma FlushInPrefix(lg: Logger, ms: seq<Msg>, n: nat, e: nat) returns (i: nat)
    requires n <= |ms| && e < |EffectsOfAll(lg, ms[..n])| && EffectsOfAll(lg, ms[..n])[e].PromiseSet?
    ensures i < n && ms[i] == Flush(EffectsOfAll(lg, ms[..n])[e].promise)
    ensures forall k :: 0 <= k < |lg.sinks| ==>
              SinkLog(EffectsOfAll(lg, ms[..n])[..e], k) == Accepted(ms[..i], lg.sinks[k])
  {
    i := PromiseAfterLogs(lg, ms[..n], e);
    assert ms[..n][..i] == ms[..i];
  }

  // And when a promise is set, every sink has seen exactly the messages it accepts among those
  // posted before the flush that carries the promise.
  lemma SingleWorkerFlushes(p0: Pool, capacity: nat, ls: seq<Label>, p: Pool, lg: Logger, e: nat) returns (i: nat)
    requires Initial(p0, capacity) && |p0.workers| == 1
    requires Exec(p0, ls) == Some(p) && BlockingOnly(ls)
    requires e < |EffectsOfAll(lg, Processed(p))| && EffectsOfAll(lg, Processed(p))[e].PromiseSet?
    ensures var es := EffectsOfAll(lg, Processed(p));
            && i < |p.handled| && i < |p.pushed| && p.pushed[i] == Flush(es[e].promise)
            && (forall k :: 0 <= k < |lg.sinks| ==> SinkLog(es[..e], k) == Accepted(p.pushed[..i], lg.sinks[k]))
  {
    RunsInTurn(p0, capacity, ls, p);
    ProcessedIsPrefix(p);
    i := FlushInPrefix(lg, p.pushed, |p.handled|, e);
  }

  // When such a pool has been destroyed, only the terminate message has not been processed.
  lemma DoneInTurn(p: Pool)
    requires Inv(p) && InTurn(p) && p.Done()
    ensures |p.pushed| == |p.handled| + 1 && p.pushed[|p.handled|] == Terminate
  {
    Shutdown.DoneMeansEmpty(p);
    NoTerminates(p.pushed);
  }

  // Then what the sinks have seen and the promises are those of every message posted.
  lemma ShutdownDelivers(p0: Pool, capacity: nat, ls: seq<Label>, p: Pool, lg: Logger)
    requires Initial(p0, capacity) && |p0.workers| == 1
    requires Exec(p0, ls) == Some(p) && BlockingOnly(ls) && p.Done()
    ensures Inv(p)
    ensures var es := EffectsOfAll(lg, Processed(p));
            && (forall k :: 0 <= k < |lg.sinks| ==> SinkLog(es, k) == Accepted(p.pushed, lg.sinks[k]))
            && (forall promise :: TimesSet(es, promise) == FlushRequests(p.pushed, promise))
  {
    SingleWorkerDelivers(p0, capacity, ls, p, lg);
    RunsInTurn(p0, capacity, ls, p);
    DoneInTurn(p);
    var n := |p.handled|;
    assert p.pushed[..n] == p.pushed[..|p.pushed| - 1];
    forall k | 0 <= k < |lg.sinks| ensures Accepted(p.pushed, lg.sinks[k]) == Accepted(p.pushed[..n], lg.sinks[k]) {
    }
    forall promise ensures FlushRequests(p.pushed, promise) == FlushRequests(p.pushed[..n], promise) {
    }
  }
}
