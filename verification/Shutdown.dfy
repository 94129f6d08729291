/** What the destructor of the thread pool achieves: nothing already queued is lost, it cannot
    get stuck, and it ends. */
module Shutdown {
  import opened Options
  import opened ThreadPool
  import BQ = BlockingQueue

  // ---------- everything is handled before the last join ----------

  ghost predicate HandledOnce(p: Pool, i: nat) {
    exists j :: 0 <= j < |p.handled| && p.handled[j] == i && forall k :: 0 <= k < |p.handled| && p.handled[k] == i ==> k == j
  }

  lemma DoneMeansEmpty(p: Pool)
    requires Inv(p) && p.Done()
    ensures p.bq.q.items == [] && p.Unposted() == 0
  {
    var items := p.bq.q.items;
    assert items != [] ==> items[|items| - 1] == p.pushed[p.Gone()..][|items| - 1] == p.pushed[|p.pushed| - 1];
    AllLive(p.workers);
    TerminatesInQueue(p);
    NoTerminates(items);
    NoTerminates(p.pushed);
  }

  lemma FateWhenDone(p: Pool, i: nat)
    requires Fates(p) && Covered(p) && Placed(p) && p.Done()
    requires i < p.Gone() && i < |p.pushed| && !p.pushed[i].Terminate?
    ensures HandledOnce(p, i) <==> i !in p.lost
  {
    assert !Held(p, i);
    if i in p.handled {
      var j :| 0 <= j < |p.handled| && p.handled[j] == i;
      assert HandledOnce(p, i);
    }
  }

  // When the destructor has joined the last worker, the queue is empty, and every log or flush
  // message ever pushed was processed exactly once, except those overrun on the way.
  lemma ShutdownDrains(p0: Pool, capacity: nat, ls: seq<Label>, p: Pool)
    requires Initial(p0, capacity) && Exec(p0, ls) == Some(p) && p.Done()
    ensures p.bq.q.items == []
    ensures forall i :: 0 <= i < |p.pushed| && !p.pushed[i].Terminate? ==> (HandledOnce(p, i) <==> i !in p.lost)
  {
    RunsKeepInv(p0, capacity, ls, p);
    DoneMeansEmpty(p);
    forall i | 0 <= i < |p.pushed| && !p.pushed[i].Terminate? ensures HandledOnce(p, i) <==> i !in p.lost {
      FateWhenDone(p, i);
    }
  }

  // Once the destructor has started, no message is overrun any more.
  lemma NothingLostAfterStop(p: Pool, l: Label)
    requires Inv(p) && p.stopping && Enabled(p, l)
    ensures After(p, l).stopping && After(p, l).lost == p.lost
  {
    if l.Queue? && l.l.Push? {
      var n, pc := |p.workers|, p.bq.pcs[l.l.t];
      assert l.l.t < n ==> WorkerAt(pc, p.workers[l.l.t]);
      assert l.l.t == n ==> DestructorAt(pc);
    }
  }

  // Without room no terminate message is ever pushed.
  lemma NoRoomToTerminate(p: Pool, l: Label)
    requires Inv(p) && p.bq.q.slots == 1 && Enabled(p, l)
    ensures Terminates(After(p, l).pushed) == Terminates(p.pushed)
  {
    if l.Queue? && l.l.Push? {
      var n, pc := |p.workers|, p.bq.pcs[l.l.t];
      assert l.l.t < n ==> WorkerAt(pc, p.workers[l.l.t]);
      assert l.l.t == n ==> DestructorAt(pc);
      assert l.l.t > n ==> PosterAt(pc);
      TerminatesConcat(p.pushed, [l.l.x]);
    }
  }

  lemma NobodyExited(p: Pool)
    requires Inv(p) && Terminates(p.pushed) == 0
    ensures !p.Done()
  {
    if p.Done() {
      DoneMeansEmpty(p);
    }
  }

  // A pool whose queue has no room at all never completes its destructor.
  lemma {:induction false} NoRoomNeverEnds(p0: Pool, ls: seq<Label>, p: Pool)
    requires Initial(p0, 0) && Exec(p0, ls) == Some(p)
    ensures Terminates(p.pushed) == 0 && !p.Done()
  {
    RunsKeepInv(p0, 0, ls, p);
    if ls != [] {
      var m := LastStep(p0, ls, p);
      NoRoomNeverEnds(p0, ls[..|ls| - 1], m);
      RunsKeepInv(p0, 0, ls[..|ls| - 1], m);
      RunsKeepSlots(p0, 0, ls[..|ls| - 1], m);
      NoRoomToTerminate(m, ls[|ls| - 1]);
    }
    NobodyExited(p);
  }

  // The workers that have not yet taken a terminate message are as many as the terminate
  // messages not yet pushed and those in the queue, at every step of every run.
  lemma LiveWorkersBalance(p0: Pool, capacity: nat, ls: seq<Label>, p: Pool)
    requires Initial(p0, capacity) && Exec(p0, ls) == Some(p)
    ensures Live(p.workers) == p.Unposted() + Terminates(p.bq.q.items) && p.Unposted() >= 0
  {
    RunsKeepInv(p0, capacity, ls, p);
  }

  // ---------- the destructor cannot get stuck ----------

  predicate Spurious(l: Label) { l.Queue? && l.l.Spurious? }

  // Some step other than a spurious wakeup can be taken.
  ghost predicate CanMove(p: Pool) {
    exists l :: Enabled(p, l) && !Spurious(l)
  }

  lemma SleeperOrNone(p: Pool, kind: BQ.Kind) returns (woken: Option<nat>)
    ensures BQ.CanWake(p.bq, woken, kind)
  {
    BQ.CountPositive(p.bq.pcs, kind);
    if BQ.Count(p.bq.pcs, kind) == 0 {
      woken := None;
    } else {
      var u :| 0 <= u < |p.bq.pcs| && BQ.KindOf(p.bq.pcs[u]) == kind;
      woken := Some(u);
    }
  }

  lemma WorkerMoves(p: Pool, w: nat)
    requires Inv(p) && w < |p.workers|
    requires !p.bq.pcs[w].AsleepEmpty? && !(p.bq.pcs[w].Idle? && p.workers[w].Exited?)
    ensures CanMove(p)
  {
    var pc := p.bq.pcs[w];
    assert WorkerAt(pc, p.workers[w]);
    if pc.Idle? {
      if p.workers[w].Fetching? {
        assert Enabled(p, Queue(BQ.Call(w, BQ.Dequeue)));
      } else {
        assert Enabled(p, Process(w));
      }
    } else if pc.NotifyingPop? {
      var woken := SleeperOrNone(p, BQ.SleepingProducer);
      assert Enabled(p, Queue(BQ.NotifyPop(w, woken)));
    } else if p.bq.q.items == [] {
      assert Enabled(p, Queue(BQ.Sleep(w)));
    } else {
      assert Enabled(p, Queue(BQ.Take(w, p.bq.q.items[0])));
    }
  }

  lemma DestructorMoves(p: Pool)
    requires Inv(p) && p.stopping && !p.bq.pcs[|p.workers|].AsleepFull?
    requires p.bq.pcs[|p.workers|].Idle? ==> p.called < |p.workers|
    ensures CanMove(p)
  {
    var n := |p.workers|;
    var pc := p.bq.pcs[n];
    assert DestructorAt(pc);
    if pc.Idle? {
      assert Enabled(p, Queue(BQ.Call(n, BQ.Enqueue(Terminate))));
    } else if pc.NotifyingPush? {
      var woken := SleeperOrNone(p, BQ.SleepingConsumer);
      assert Enabled(p, Queue(BQ.NotifyPush(n, woken)));
    } else if p.bq.q.Full() {
      assert Enabled(p, Queue(BQ.Sleep(n)));
    } else {
      assert Enabled(p, Queue(BQ.Push(n, Terminate, None)));
    }
  }

  // If every worker sleeps or is gone, nobody owes a notification or a recheck to the others
  // except possibly the destructor.
  lemma Quiet(p: Pool)
    requires Inv(p) && p.stopping
    requires forall w :: 0 <= w < |p.workers| ==> p.bq.pcs[w].AsleepEmpty? || p.bq.pcs[w].Idle?
    requires p.bq.pcs[|p.workers|].AsleepFull? || p.bq.pcs[|p.workers|].Idle?
    ensures BQ.Count(p.bq.pcs, BQ.PopNotice) == BQ.Count(p.bq.pcs, BQ.PushNotice) == 0
    ensures BQ.Count(p.bq.pcs, BQ.WokenProducer) == BQ.Count(p.bq.pcs, BQ.WokenConsumer) == 0
  {
    BQ.CountPositive(p.bq.pcs, BQ.PopNotice);
    BQ.CountPositive(p.bq.pcs, BQ.PushNotice);
    BQ.CountPositive(p.bq.pcs, BQ.WokenProducer);
    BQ.CountPositive(p.bq.pcs, BQ.WokenConsumer);
  }

  // If all workers are asleep or gone and one is asleep, the queue is empty, so the destructor
  // still has messages to post and there is room for them.
  lemma SleeperMeansWork(p: Pool, w: nat)
    requires Inv(p) && p.stopping && p.bq.q.slots >= 2
    requires forall v :: 0 <= v < |p.workers| ==> p.bq.pcs[v].AsleepEmpty? || p.bq.pcs[v].Idle?
    requires p.bq.pcs[|p.workers|].AsleepFull? || p.bq.pcs[|p.workers|].Idle?
    requires w < |p.workers| && p.bq.pcs[w].AsleepEmpty?
    ensures p.bq.pcs[|p.workers|].Idle? && p.called < |p.workers|
  {
    var n := |p.workers|;
    assert p.bq.pcs[n].AsleepFull? ==> BQ.KindOf(p.bq.pcs[n]) == BQ.SleepingProducer;
    Quiet(p);
    BQ.CountPositive(p.bq.pcs, BQ.SleepingConsumer);
    BQ.CountPositive(p.bq.pcs, BQ.SleepingProducer);
    assert BQ.KindOf(p.bq.pcs[w]) == BQ.SleepingConsumer;
    assert p.bq.q.items == [];
    assert WorkerAt(p.bq.pcs[w], p.workers[w]);
    AllLive(p.workers);
  }

  lemma AllGone(p: Pool)
    requires Inv(p) && p.stopping && p.bq.q.slots >= 2 && !p.Done()
    requires forall w :: 0 <= w < |p.workers| ==> p.bq.pcs[w].Idle? && p.workers[w].Exited?
    requires p.bq.pcs[|p.workers|].AsleepFull? || (p.bq.pcs[|p.workers|].Idle? && p.called == |p.workers|)
    ensures CanMove(p)
  {
    AllLive(p.workers);
    TerminatesInQueue(p);
    if p.bq.pcs[|p.workers|].Idle? {
      assert Enabled(p, Join(p.joined));
    }
  }

  // With room for at least one message, the destructor and the workers always have a next step
  // until the last worker is joined.
  lemma ShutdownNeverStuck(p: Pool)
    requires Inv(p) && p.stopping && p.bq.q.slots >= 2 && !p.Done()
    ensures CanMove(p)
  {
    var n := |p.workers|;
    if w :| 0 <= w < n && !p.bq.pcs[w].AsleepEmpty? && !(p.bq.pcs[w].Idle? && p.workers[w].Exited?) {
      WorkerMoves(p, w);
    } else if !p.bq.pcs[n].AsleepFull? && (p.bq.pcs[n].Idle? ==> p.called < n) {
      DestructorMoves(p);
    } else if w :| 0 <= w < n && p.bq.pcs[w].AsleepEmpty? {
      SleeperMeansWork(p, w);
      assert false;
    } else {
      AllGone(p);
    }
  }

  // ---------- the destructor ends ----------

  function Sum(s: seq<nat>): nat {
    if s == [] then 0 else s[0] + Sum(s[1..])
  }

  lemma {:induction false} SumUpdate(s: seq<nat>, i: nat, x: nat)
    requires i < |s|
    ensures Sum(s[i := x]) + s[i] == Sum(s) + x
  {
    if i == 0 {
      assert s[i := x][1..] == s[1..];
    } else {
      assert s[i := x][1..] == s[1..][i - 1 := x];
      SumUpdate(s[1..], i - 1, x);
    }
  }

  // How far a thread is from being done with what it is doing.
  function Weight(pc: BQ.Pc<Msg>, c: Option<Ctl>): nat {
    match pc
    case Idle =>
      (match c
       case None => 3
       case Some(Fetching) => 3
       case Some(Holding(_)) => 4
       case Some(Leaving) => 4
       case Some(Exited) => 0)
    case AsleepFull(_) => 1
    case AsleepEmpty(_) => 1
    case NotifyingPush => 5
    case NotifyingPop => 6
    case _ => 2
  }

  ghost function Weights(p: Pool): (s: seq<nat>)
    ensures |s| == |p.bq.pcs|
  {
    seq(|p.bq.pcs|, t requires 0 <= t < |p.bq.pcs| =>
      Weight(p.bq.pcs[t], if t < |p.workers| then Some(p.workers[t]) else None))
  }

  // Work left: terminate messages to push, messages to take, threads to bring home, joins.
  ghost function WorkLeft(p: Pool): int {
    10 * p.Unposted() + 5 * |p.bq.q.items| + Sum(Weights(p)) + (|p.workers| - p.joined)
  }

  lemma WeightsMove(p: Pool, p': Pool, t: nat)
    requires |p.bq.pcs| == |p'.bq.pcs| && |p.workers| == |p'.workers| && t < |p.bq.pcs|
    requires forall u :: 0 <= u < |p.bq.pcs| && u != t ==> p'.bq.pcs[u] == p.bq.pcs[u]
    requires forall u :: 0 <= u < |p.workers| && u != t ==> p'.workers[u] == p.workers[u]
    ensures Sum(Weights(p')) + Weights(p)[t] == Sum(Weights(p)) + Weights(p')[t]
  {
    assert Weights(p') == Weights(p)[t := Weights(p')[t]];
    SumUpdate(Weights(p), t, Weights(p')[t]);
  }

  // The weight of a notifying thread drops by two or more when it has notified.
  lemma NotifierWeight(p: Pool, t: nat)
    requires Placed(p) && t < |p.bq.pcs| && (p.bq.pcs[t].NotifyingPush? || p.bq.pcs[t].NotifyingPop?)
    ensures Weights(p)[t] >= Weight(BQ.Idle, if t < |p.workers| then Some(p.workers[t]) else None) + 2
  {
    if t < |p.workers| {
      assert WorkerAt(p.bq.pcs[t], p.workers[t]);
    } else if t > |p.workers| {
      assert PosterAt(p.bq.pcs[t]);
    }
  }

  lemma NotifyingIsWork(p: Pool, t: nat)
    requires Placed(p) && t < |p.bq.pcs| && (p.bq.pcs[t].NotifyingPush? || p.bq.pcs[t].NotifyingPop?)
    ensures WorkLeft(WithPc(p, t, BQ.Idle)) <= WorkLeft(p) - 2
  {
    NotifierWeight(p, t);
    WeightsMove(p, WithPc(p, t, BQ.Idle), t);
  }

  lemma WakingCostsOne(p: Pool, t: nat)
    requires t < |p.bq.pcs| && BQ.Asleep(p.bq.pcs[t])
    ensures WorkLeft(WithPc(p, t, BQ.Awake(p.bq.pcs[t]))) == WorkLeft(p) + 1
  {
    WeightsMove(p, WithPc(p, t, BQ.Awake(p.bq.pcs[t])), t);
  }

  lemma NotifyDoesWork(p: Pool, l: BQ.Label<Msg>)
    requires Placed(p) && Enabled(p, Queue(l)) && (l.NotifyPush? || l.NotifyPop?)
    ensures WorkLeft(After(p, Queue(l))) < WorkLeft(p)
  {
    AfterNotify(p, l);
    NotifyingIsWork(p, l.t);
    if l.woken.Some? {
      WakingCostsOne(WithPc(p, l.t, BQ.Idle), l.woken.value);
    }
  }

  lemma PushDoesWork(p: Pool, l: BQ.Label<Msg>)
    requires Placed(p) && Matches(p) && p.stopping && Enabled(p, Queue(l)) && l.Push?
    ensures WorkLeft(After(p, Queue(l))) < WorkLeft(p)
  {
    var n, pc := |p.workers|, p.bq.pcs[l.t];
    assert l.t < n ==> WorkerAt(pc, p.workers[l.t]);
    assert l.t > n ==> PosterAt(pc) && pc.Idle?;
    assert l.t == n && Posting(p.bq.pcs[n]) && l.x == Terminate;
    var p' := After(p, Queue(l));
    assert Weights(p)[n] == 2 && Weights(p')[n] == 5;
    WeightsMove(p, p', n);
    TerminatesConcat(p.pushed, [l.x]);
    assert Terminates([l.x]) == 1;
  }

  // The thread that moves gets lighter, or takes a message out of the queue.
  lemma MoveIsLighter(p: Pool, l: BQ.Label<Msg>)
    requires Placed(p) && Matches(p) && p.stopping && Enabled(p, Queue(l))
    requires !l.NotifyPush? && !l.NotifyPop? && !l.Push? && !l.Spurious?
    ensures var p' := After(p, Queue(l));
            && Weights(p')[l.t] + 5 * |p'.bq.q.items| < Weights(p)[l.t] + 5 * |p.bq.q.items|
            && p'.pushed == p.pushed
  {
    var n, pc := |p.workers|, p.bq.pcs[l.t];
    assert l.t < n ==> WorkerAt(pc, p.workers[l.t]);
    assert l.t > n ==> pc.Idle?;
    assert l.t == n ==> DestructorAt(pc);
  }

  lemma MoveDoesWork(p: Pool, l: BQ.Label<Msg>)
    requires Placed(p) && Matches(p) && p.stopping && Enabled(p, Queue(l))
    requires !l.NotifyPush? && !l.NotifyPop? && !l.Push? && !l.Spurious?
    ensures WorkLeft(After(p, Queue(l))) < WorkLeft(p)
  {
    WeightsMove(p, After(p, Queue(l)), l.t);
    MoveIsLighter(p, l);
  }

  lemma SpuriousCostsOne(p: Pool, t: nat)
    requires Enabled(p, Queue(BQ.Spurious(t)))
    ensures WorkLeft(After(p, Queue(BQ.Spurious(t)))) == WorkLeft(p) + 1
  {
    WakingCostsOne(p, t);
  }

  lemma ProcessDoesWork(p: Pool, w: nat)
    requires Enabled(p, Process(w))
    ensures WorkLeft(After(p, Process(w))) < WorkLeft(p)
  {
    WeightsMove(p, After(p, Process(w)), w);
  }

  lemma JoinDoesWork(p: Pool, w: nat)
    requires Enabled(p, Join(w))
    ensures WorkLeft(After(p, Join(w))) < WorkLeft(p)
  {
    assert Weights(After(p, Join(w))) == Weights(p);
  }

  // Every step after the destructor has started uses up work, except that a spurious wakeup
  // costs one unit.
  lemma StepDoesWork(p: Pool, l: Label)
    requires Placed(p) && Matches(p) && p.stopping && Enabled(p, l)
    ensures if Spurious(l) then WorkLeft(After(p, l)) == WorkLeft(p) + 1 else WorkLeft(After(p, l)) < WorkLeft(p)
  {
    match l
    case Queue(ql) =>
      if ql.NotifyPush? || ql.NotifyPop? {
        NotifyDoesWork(p, ql);
      } else if ql.Push? {
        PushDoesWork(p, ql);
      } else if ql.Spurious? {
        SpuriousCostsOne(p, ql.t);
      } else {
        MoveDoesWork(p, ql);
      }
    case Process(w) => ProcessDoesWork(p, w);
    case Stop =>
    case Join(w) => JoinDoesWork(p, w);
  }

  function SpuriousWakeups(ls: seq<Label>): nat {
    if ls == [] then 0 else SpuriousWakeups(ls[..|ls| - 1]) + BQ.Ind(Spurious(ls[|ls| - 1]))
  }

  // A bound on the length of every run of the destructor: the work at its start plus two steps
  // for each spurious wakeup.
  lemma {:induction false} ShutdownEnds(p0: Pool, ls: seq<Label>, p: Pool)
    requires Inv(p0) && p0.stopping && Exec(p0, ls) == Some(p)
    ensures Inv(p) && p.stopping
    ensures 0 <= WorkLeft(p) <= WorkLeft(p0) - |ls| + 2 * SpuriousWakeups(ls)
  {
    if ls != [] {
      var front := ls[..|ls| - 1];
      var m := Exec(p0, front).value;
      ShutdownEnds(p0, front, m);
      StepKeepsInv(m, ls[|ls| - 1]);
      StepDoesWork(m, ls[|ls| - 1]);
    }
  }
}
