/** The thread pool on top of the blocking queue: workers that take and process messages, threads
    that post messages under the three overflow policies, and a destructor that posts one
    terminate message per worker and joins them. */
module ThreadPool {
  import opened Options
  import opened CircularQueue
  import BQ = BlockingQueue

  datatype Msg =
    | Log(level: nat, text: string)
    | Flush(promise: nat)
    | Terminate

  // A worker inside worker_loop_: fetching a message, having taken the message that was pushed
  // i-th, having taken a terminate message, or gone.
  datatype Ctl = Fetching | Holding(i: nat) | Leaving | Exited

  // Threads 0 .. |workers| - 1 of the queue are the workers, thread |workers| runs the
  // destructor, the others post messages. `pushed`, `lost` and `handled` record the history: all
  // messages pushed so far, and the positions of those overrun and of those processed, in order.
  datatype Pool = Pool(bq: BQ.State<Msg>, workers: seq<Ctl>, pushed: seq<Msg>, lost: set<nat>,
                       handled: seq<nat>, stopping: bool, called: nat, joined: nat)
  {
    function Gone(): int { |pushed| - |bq.q.items| }
    function Unposted(): int { |workers| - Terminates(pushed) }
    predicate Done() { joined == |workers| }
  }

  datatype Label =
    | Queue(l: BQ.Label<Msg>)  // a step of the queue
    | Process(w: nat)          // a worker finishes process_next_msg_
    | Stop                     // the destructor starts
    | Join(w: nat)

  predicate IsPost(op: BQ.Op<Msg>) {
    (op.Enqueue? || op.EnqueueNowait? || op.EnqueueIfHaveRoom?) && !op.x.Terminate?
  }

  // Which calls the program makes; all other queue steps follow from the calls. A poster holds a
  // shared pointer to the pool, so nobody posts once the destructor has started.
  ghost predicate Permitted(p: Pool, l: BQ.Label<Msg>) {
    match l
    case Call(t, op) =>
      if t < |p.workers| then p.workers[t].Fetching? && op.Dequeue?
      else if t == |p.workers| then p.stopping && op == BQ.Enqueue(Terminate) && p.called < |p.workers|
      else !p.stopping && IsPost(op)
    case ResetOverrun => !p.stopping
    case ResetDiscard => !p.stopping
    case _ => true
  }

  ghost predicate Enabled(p: Pool, l: Label) {
    match l
    case Queue(ql) => BQ.Enabled(p.bq, ql) && Permitted(p, ql) && (ql.Take? ==> ql.t < |p.workers|)
    case Process(w) =>
      && w < |p.workers| < |p.bq.pcs| && p.bq.pcs[w].Idle?
      && (p.workers[w].Leaving? || (p.workers[w].Holding? && p.workers[w].i < |p.pushed|))
    case Stop => !p.stopping && forall t :: |p.workers| <= t < |p.bq.pcs| ==> p.bq.pcs[t].Idle?
    case Join(w) =>
      && p.stopping && p.called == |p.workers| < |p.bq.pcs| && p.bq.pcs[|p.workers|].Idle?
      && w == p.joined < |p.workers| && p.workers[w].Exited?
  }

  ghost function After(p: Pool, l: Label): Pool
    requires Enabled(p, l)
  {
    match l
    case Queue(ql) => AfterQueue(p, ql)
    case Process(w) =>
      if p.workers[w].Leaving? then p.(workers := p.workers[w := Exited])
      else p.(workers := p.workers[w := Fetching], handled := p.handled + [p.workers[w].i])
    case Stop => p.(stopping := true)
    case Join(w) => p.(joined := p.joined + 1)
  }

  ghost function AfterQueue(p: Pool, l: BQ.Label<Msg>): Pool
    requires Enabled(p, Queue(l))
  {
    var q := p.(bq := BQ.After(p.bq, l));
    match l
    case Call(t, _) => if t == |p.workers| then q.(called := p.called + 1) else q
    case Push(_, x, evicted) =>
      q.(pushed := p.pushed + [x],
         lost := if evicted.Some? && |p.bq.q.items| <= |p.pushed| then p.lost + {p.Gone()} else p.lost)
    case Take(t, x) =>
      q.(workers := p.workers[t := if x.Terminate? || |p.bq.q.items| > |p.pushed| then Leaving else Holding(p.Gone())])
    case _ => q
  }

  ghost predicate Initial(p: Pool, capacity: nat) {
    && BQ.Initial(p.bq, capacity)
    && 1 <= |p.workers| <= 1000 && |p.workers| < |p.bq.pcs|
    && (forall w :: 0 <= w < |p.workers| ==> p.workers[w].Fetching?)
    && p.pushed == [] && p.lost == {} && p.handled == []
    && !p.stopping && p.called == 0 && p.joined == 0
  }

  ghost function Exec(p: Pool, ls: seq<Label>): Option<Pool> {
    if ls == [] then Some(p)
    else
      match Exec(p, ls[..|ls| - 1])
      case None => None
      case Some(m) => if Enabled(m, ls[|ls| - 1]) then Some(After(m, ls[|ls| - 1])) else None
  }

  // ---------- counting ----------

  function Terminates(s: seq<Msg>): nat {
    if s == [] then 0 else BQ.Ind(s[0].Terminate?) + Terminates(s[1..])
  }

  lemma {:induction false} TerminatesConcat(a: seq<Msg>, b: seq<Msg>)
    ensures Terminates(a + b) == Terminates(a) + Terminates(b)
  {
    if a == [] {
      assert a + b == b;
    } else {
      assert (a + b)[1..] == a[1..] + b;
      TerminatesConcat(a[1..], b);
    }
  }

  lemma {:induction false} NoTerminates(s: seq<Msg>)
    ensures Terminates(s) == 0 <==> forall i :: 0 <= i < |s| ==> !s[i].Terminate?
  {
    if s != [] {
      NoTerminates(s[1..]);
      assert forall i :: 0 < i < |s| ==> s[i] == s[1..][i - 1];
    }
  }

  function Live(ws: seq<Ctl>): nat {
    if ws == [] then 0 else BQ.Ind(ws[0].Fetching? || ws[0].Holding?) + Live(ws[1..])
  }

  lemma {:induction false} LiveUpdate(ws: seq<Ctl>, w: nat, c: Ctl)
    requires w < |ws|
    ensures Live(ws[w := c]) == Live(ws) - BQ.Ind(ws[w].Fetching? || ws[w].Holding?) + BQ.Ind(c.Fetching? || c.Holding?)
  {
    if w == 0 {
      assert ws[w := c][1..] == ws[1..];
    } else {
      assert ws[w := c][1..] == ws[1..][w - 1 := c];
      LiveUpdate(ws[1..], w - 1, c);
    }
  }

  lemma {:induction false} AllLive(ws: seq<Ctl>)
    ensures Live(ws) <= |ws|
    ensures (forall w :: 0 <= w < |ws| ==> ws[w].Fetching?) ==> Live(ws) == |ws|
    ensures Live(ws) == 0 <==> forall w :: 0 <= w < |ws| ==> ws[w].Leaving? || ws[w].Exited?
  {
    if ws != [] {
      AllLive(ws[1..]);
      assert forall w :: 0 < w < |ws| ==> ws[w] == ws[1..][w - 1];
    }
  }

  // ---------- where threads can be ----------

  predicate WorkerAt(pc: BQ.Pc<Msg>, c: Ctl) {
    match pc
    case Idle => true
    case Entering(op) => op.Dequeue? && c.Fetching?
    case AsleepEmpty(timed) => !timed && c.Fetching?
    case WokenEmpty(timed) => !timed && c.Fetching?
    case NotifyingPop => c.Holding? || c.Leaving?
    case _ => false
  }

  predicate Posting(pc: BQ.Pc<Msg>) {
    pc == BQ.Entering(BQ.Enqueue(Terminate)) || pc == BQ.AsleepFull(Terminate) || pc == BQ.WokenFull(Terminate)
  }

  predicate DestructorAt(pc: BQ.Pc<Msg>) {
    pc.Idle? || pc.NotifyingPush? || Posting(pc)
  }

  predicate PosterAt(pc: BQ.Pc<Msg>) {
    match pc
    case Idle => true
    case Entering(op) => IsPost(op)
    case AsleepFull(x) => !x.Terminate?
    case WokenFull(x) => !x.Terminate?
    case NotifyingPush => true
    case Rejecting => true
    case _ => false
  }

  ghost predicate Placed(p: Pool) {
    var n := |p.workers|;
    && 1 <= n < |p.bq.pcs|
    && (forall t :: 0 <= t < n ==> WorkerAt(p.bq.pcs[t], p.workers[t]))
    && DestructorAt(p.bq.pcs[n])
    && (forall t :: n < t < |p.bq.pcs| ==> PosterAt(p.bq.pcs[t]) && (p.stopping ==> p.bq.pcs[t].Idle?))
    && (!p.stopping ==> p.bq.pcs[n].Idle? && p.called == 0)
    && p.joined <= n
    && (forall w :: 0 <= w < p.joined ==> p.workers[w].Exited?)
  }

  // The queue holds the latest pushes.
  ghost predicate Matches(p: Pool) {
    && p.bq.q.Valid() && p.bq.q.slots > 0
    && |p.bq.q.items| <= |p.pushed|
    && p.pushed[p.Gone()..] == p.bq.q.items
  }

  lemma MoveKeepsPlaces(p: Pool, l: BQ.Label<Msg>)
    requires Placed(p) && Matches(p) && Enabled(p, Queue(l))
    requires !l.NotifyPush? && !l.NotifyPop? && !l.ResetOverrun? && !l.ResetDiscard?
    ensures Placed(After(p, Queue(l)))
  {
    var n, p' := |p.workers|, After(p, Queue(l));
    assert p'.bq.pcs == p.bq.pcs[l.t := p'.bq.pcs[l.t]];
    if l.t < n {
      assert WorkerAt(p.bq.pcs[l.t], p.workers[l.t]);
      assert WorkerAt(p'.bq.pcs[l.t], p'.workers[l.t]);
    } else if l.t > n {
      assert PosterAt(p.bq.pcs[l.t]);
      assert PosterAt(p'.bq.pcs[l.t]);
    } else {
      assert DestructorAt(p'.bq.pcs[n]);
    }
  }

  ghost function WithPc(p: Pool, t: nat, pc: BQ.Pc<Msg>): Pool
    requires t < |p.bq.pcs|
  {
    p.(bq := p.bq.(pcs := p.bq.pcs[t := pc]))
  }

  // Where a thread may stand.
  ghost predicate MayStand(p: Pool, t: nat, pc: BQ.Pc<Msg>) {
    if t < |p.workers| then WorkerAt(pc, p.workers[t])
    else if t == |p.workers| then DestructorAt(pc) && (!p.stopping ==> pc.Idle?)
    else PosterAt(pc) && (p.stopping ==> pc.Idle?)
  }

  lemma PcKeepsPlaces(p: Pool, t: nat, pc: BQ.Pc<Msg>)
    requires Placed(p) && t < |p.bq.pcs| && MayStand(p, t, pc)
    ensures Placed(WithPc(p, t, pc))
  {
  }

  lemma WakingKeepsPlaces(p: Pool, t: nat)
    requires Placed(p) && t < |p.bq.pcs| && BQ.Asleep(p.bq.pcs[t])
    ensures Placed(WithPc(p, t, BQ.Awake(p.bq.pcs[t])))
  {
    assert MayStand(p, t, p.bq.pcs[t]);
    PcKeepsPlaces(p, t, BQ.Awake(p.bq.pcs[t]));
  }

  lemma AfterNotify(p: Pool, l: BQ.Label<Msg>)
    requires Enabled(p, Queue(l)) && (l.NotifyPush? || l.NotifyPop?)
    ensures var mid := WithPc(p, l.t, BQ.Idle);
            match l.woken
            case None => After(p, Queue(l)) == mid
            case Some(u) => u < |mid.bq.pcs| && BQ.Asleep(mid.bq.pcs[u]) &&
                            After(p, Queue(l)) == WithPc(mid, u, BQ.Awake(mid.bq.pcs[u]))
  {
  }

  lemma NotifyKeepsPlaces(p: Pool, l: BQ.Label<Msg>)
    requires Placed(p) && Enabled(p, Queue(l)) && (l.NotifyPush? || l.NotifyPop?)
    ensures Placed(After(p, Queue(l)))
  {
    AfterNotify(p, l);
    PcKeepsPlaces(p, l.t, BQ.Idle);
    if l.woken.Some? {
      WakingKeepsPlaces(WithPc(p, l.t, BQ.Idle), l.woken.value);
    }
  }

  lemma StepKeepsPlaces(p: Pool, l: Label)
    requires Placed(p) && Matches(p) && Enabled(p, l)
    ensures Placed(After(p, l))
  {
    if l.Queue? {
      if l.l.NotifyPush? || l.l.NotifyPop? {
        NotifyKeepsPlaces(p, l.l);
      } else if !l.l.ResetOverrun? && !l.l.ResetDiscard? {
        MoveKeepsPlaces(p, l.l);
      }
    }
  }

  lemma TailSnoc<T>(xs: seq<T>, n: nat, tail: seq<T>, x: T)
    requires n <= |xs| && xs[n..] == tail
    ensures (xs + [x])[n..] == tail + [x] && (xs + [x])[n + 1..] == (tail + [x])[1..]
  {
  }

  lemma PushKeepsMatch(p: Pool, l: BQ.Label<Msg>)
    requires Matches(p) && Enabled(p, Queue(l)) && l.Push?
    ensures Matches(After(p, Queue(l)))
  {
    TailSnoc(p.pushed, p.Gone(), p.bq.q.items, l.x);
  }

  lemma StepKeepsMatch(p: Pool, l: Label)
    requires Matches(p) && Enabled(p, l)
    ensures Matches(After(p, l))
  {
    if l.Queue? {
      if l.l.Push? {
        PushKeepsMatch(p, l.l);
      } else if l.l.Take? {
        assert p.pushed[p.Gone() + 1..] == p.bq.q.items[1..];
      }
    }
  }

  // ---------- terminate messages ----------

  // Every worker still to receive a terminate message has one unposted or in the queue, and
  // nothing is pushed after the first of them.
  ghost predicate Balanced(p: Pool) {
    var n := |p.workers|;
    && n < |p.bq.pcs|
    && p.called == Terminates(p.pushed) + BQ.Ind(Posting(p.bq.pcs[n]))
    && p.called <= n
    && Live(p.workers) == p.Unposted() + Terminates(p.bq.q.items)
    && (forall i, j :: 0 <= i < j < |p.pushed| && p.pushed[i].Terminate? ==> p.pushed[j].Terminate?)
  }

  lemma TerminatesInQueue(p: Pool)
    requires Matches(p)
    ensures Terminates(p.bq.q.items) <= Terminates(p.pushed)
  {
    assert p.pushed == p.pushed[..p.Gone()] + p.bq.q.items;
    TerminatesConcat(p.pushed[..p.Gone()], p.bq.q.items);
  }

  lemma PushKeepsBalance(p: Pool, l: BQ.Label<Msg>)
    requires Placed(p) && Matches(p) && Balanced(p) && Enabled(p, Queue(l)) && l.Push?
    ensures Balanced(After(p, Queue(l)))
  {
    var n, q := |p.workers|, p.bq.q;
    TerminatesConcat(p.pushed, [l.x]);
    TerminatesConcat(q.items, [l.x]);
    assert Terminates([l.x]) == BQ.Ind(l.x.Terminate?);
    assert l.t >= n;
    if l.t == n {
      assert l.x == Terminate && !q.Full();
    } else {
      assert PosterAt(p.bq.pcs[l.t]) && !p.stopping && !l.x.Terminate?;
      TerminatesInQueue(p);
      NoTerminates(p.pushed);
      if l.evicted.Some? {
        assert (q.items + [l.x]) == [l.evicted.value] + (q.items + [l.x])[1..];
        TerminatesConcat([l.evicted.value], (q.items + [l.x])[1..]);
      }
    }
  }

  lemma TakeKeepsBalance(p: Pool, l: BQ.Label<Msg>)
    requires Placed(p) && Matches(p) && Balanced(p) && Enabled(p, Queue(l)) && l.Take?
    ensures Balanced(After(p, Queue(l)))
  {
    assert WorkerAt(p.bq.pcs[l.t], p.workers[l.t]);
    LiveUpdate(p.workers, l.t, After(p, Queue(l)).workers[l.t]);
  }

  // The destructor is posting from its call to its push.
  lemma WaitingKeepsPosting(p: Pool, l: BQ.Label<Msg>)
    requires Placed(p) && Enabled(p, Queue(l)) && !l.Push? && !l.Take?
    ensures var p', n := After(p, Queue(l)), |p.workers|;
            && p'.called - BQ.Ind(Posting(p'.bq.pcs[n])) == p.called - BQ.Ind(Posting(p.bq.pcs[n]))
            && (p'.called > p.called ==> p.called < n)
  {
    assert DestructorAt(p.bq.pcs[|p.workers|]);
  }

  lemma WaitingKeepsBalance(p: Pool, l: BQ.Label<Msg>)
    requires Placed(p) && Matches(p) && Balanced(p) && Enabled(p, Queue(l)) && !l.Push? && !l.Take?
    ensures Balanced(After(p, Queue(l)))
  {
    var p' := After(p, Queue(l));
    assert p'.pushed == p.pushed && p'.workers == p.workers && p'.bq.q.items == p.bq.q.items;
    WaitingKeepsPosting(p, l);
  }

  lemma StepKeepsBalance(p: Pool, l: Label)
    requires Placed(p) && Matches(p) && Balanced(p) && Enabled(p, l)
    ensures Balanced(After(p, l))
  {
    if l.Process? {
      LiveUpdate(p.workers, l.w, After(p, l).workers[l.w]);
    } else if l.Queue? {
      if l.l.Push? {
        PushKeepsBalance(p, l.l);
      } else if l.l.Take? {
        TakeKeepsBalance(p, l.l);
      } else {
        WaitingKeepsBalance(p, l.l);
      }
    }
  }

  // ---------- every message is accounted for ----------

  ghost predicate Fates(p: Pool) {
    && (forall i :: i in p.lost ==> i < p.Gone() && p.Gone() <= |p.pushed| && !p.pushed[i].Terminate? && i !in p.handled)
    && (forall j :: 0 <= j < |p.handled| ==> p.handled[j] < p.Gone() <= |p.pushed| && !p.pushed[p.handled[j]].Terminate?)
    && (forall j, k :: 0 <= j < k < |p.handled| ==> p.handled[j] != p.handled[k])
  }

  ghost predicate Holders(p: Pool) {
    && (forall w :: 0 <= w < |p.workers| && p.workers[w].Holding? ==>
          && p.workers[w].i < p.Gone() <= |p.pushed| && !p.pushed[p.workers[w].i].Terminate?
          && p.workers[w].i !in p.lost && p.workers[w].i !in p.handled)
    && (forall v, w :: 0 <= v < w < |p.workers| && p.workers[v].Holding? && p.workers[w].Holding? ==>
          p.workers[v].i != p.workers[w].i)
  }

  ghost predicate Held(p: Pool, i: nat) {
    exists w :: 0 <= w < |p.workers| && p.workers[w] == Holding(i)
  }

  ghost predicate Covered(p: Pool) {
    forall i {:trigger p.pushed[i]} :: 0 <= i < p.Gone() && i < |p.pushed| ==>
      p.pushed[i].Terminate? || i in p.lost || i in p.handled || Held(p, i)
  }

  lemma PushKeepsFates(p: Pool, l: BQ.Label<Msg>)
    requires Placed(p) && Matches(p) && Balanced(p) && Fates(p) && Enabled(p, Queue(l)) && l.Push?
    ensures Fates(After(p, Queue(l)))
  {
    if l.evicted.Some? {
      assert DestructorAt(p.bq.pcs[|p.workers|]);
      assert l.t > |p.workers| && PosterAt(p.bq.pcs[l.t]) && !p.stopping;
      NoTerminates(p.pushed);
    }
    var p' := After(p, Queue(l));
    assert forall i :: 0 <= i < |p.pushed| ==> p'.pushed[i] == p.pushed[i];
    assert forall i :: i in p'.lost ==> i in p.lost || (i == p.Gone() && l.evicted.Some?);
    assert forall j :: 0 <= j < |p.handled| ==> p.pushed[p.handled[j]] == p'.pushed[p.handled[j]];
  }

  lemma ProcessKeepsFates(p: Pool, w: nat)
    requires Fates(p) && Holders(p) && Enabled(p, Process(w))
    ensures Fates(After(p, Process(w)))
  {
  }

  lemma StepKeepsFates(p: Pool, l: Label)
    requires Placed(p) && Matches(p) && Balanced(p) && Fates(p) && Holders(p) && Enabled(p, l)
    ensures Fates(After(p, l))
  {
    if l.Queue? {
      if l.l.Push? {
        PushKeepsFates(p, l.l);
      } else {
        var p' := After(p, l);
        assert p'.pushed == p.pushed && p'.lost == p.lost && p'.handled == p.handled && p'.Gone() >= p.Gone();
      }
    } else if l.Process? {
      ProcessKeepsFates(p, l.w);
    }
  }

  lemma TakeKeepsHolders(p: Pool, l: BQ.Label<Msg>)
    requires Matches(p) && Fates(p) && Holders(p) && Enabled(p, Queue(l)) && l.Take?
    ensures Holders(After(p, Queue(l)))
  {
    assert p.pushed[p.Gone()] == l.x;
  }

  lemma PushKeepsHolders(p: Pool, l: BQ.Label<Msg>)
    requires Matches(p) && Fates(p) && Holders(p) && Enabled(p, Queue(l)) && l.Push?
    ensures Holders(After(p, Queue(l)))
  {
  }

  lemma ProcessKeepsHolders(p: Pool, w: nat)
    requires Matches(p) && Fates(p) && Holders(p) && Enabled(p, Process(w))
    ensures Holders(After(p, Process(w)))
  {
  }

  lemma StepKeepsHolders(p: Pool, l: Label)
    requires Placed(p) && Matches(p) && Fates(p) && Holders(p) && Enabled(p, l)
    ensures Holders(After(p, l))
  {
    if l.Queue? {
      if l.l.Take? {
        TakeKeepsHolders(p, l.l);
      } else if l.l.Push? {
        PushKeepsHolders(p, l.l);
      }
    } else if l.Process? {
      ProcessKeepsHolders(p, l.w);
    }
  }

  // A message in a worker's hands stays there until it has been handled.
  lemma HeldStays(p: Pool, l: Label, i: nat)
    requires Placed(p) && Held(p, i) && Enabled(p, l)
    ensures i in After(p, l).handled || Held(After(p, l), i)
  {
    var w :| 0 <= w < |p.workers| && p.workers[w] == Holding(i);
    var p' := After(p, l);
    if l.Process? && l.w == w {
      assert p'.handled[|p.handled|] == i;
    } else {
      assert l.Queue? && l.l.Take? ==> WorkerAt(p.bq.pcs[l.l.t], p.workers[l.l.t]);
      assert p'.workers[w] == Holding(i);
    }
  }

  lemma StepKeepsCover(p: Pool, l: Label)
    requires Placed(p) && Matches(p) && Covered(p) && Enabled(p, l)
    ensures Covered(After(p, l))
  {
    var p' := After(p, l);
    forall i {:trigger p'.pushed[i]} | 0 <= i < p'.Gone() && i < |p'.pushed|
      ensures p'.pushed[i].Terminate? || i in p'.lost || i in p'.handled || Held(p', i)
    {
      if i < p.Gone() {
        assert p'.pushed[i] == p.pushed[i];
        if Held(p, i) {
          HeldStays(p, l, i);
        }
      } else if l.Queue? && l.l.Take? {
        assert p'.pushed[i] == p.bq.q.items[0];
        assert !l.l.x.Terminate? ==> p'.workers[l.l.t] == Holding(i);
      }
    }
  }

  // ---------- the invariant of every run ----------

  ghost predicate Inv(p: Pool) {
    Placed(p) && Matches(p) && BQ.WakeupsKept(p.bq) && Balanced(p) && Fates(p) && Holders(p) && Covered(p)
  }

  lemma StepKeepsInv(p: Pool, l: Label)
    requires Inv(p) && Enabled(p, l)
    ensures Inv(After(p, l))
  {
    StepKeepsPlaces(p, l);
    StepKeepsMatch(p, l);
    StepKeepsBalance(p, l);
    StepKeepsFates(p, l);
    StepKeepsHolders(p, l);
    StepKeepsCover(p, l);
    if l.Queue? {
      BQ.StepKeepsWakeups(p.bq, l.l);
    }
  }

  lemma StepKeepsSlots(p: Pool, l: Label)
    requires Enabled(p, l) && p.bq.q.slots > 0
    ensures After(p, l).bq.q.slots == p.bq.q.slots
  {
  }

  lemma InitialPlaces(p0: Pool, capacity: nat)
    requires Initial(p0, capacity)
    ensures Placed(p0) && Matches(p0) && Fates(p0) && Holders(p0) && Covered(p0)
  {
  }

  lemma InitialBalance(p0: Pool, capacity: nat)
    requires Initial(p0, capacity)
    ensures Balanced(p0)
  {
    AllLive(p0.workers);
    assert p0.bq.pcs[|p0.workers|].Idle?;
  }

  lemma InitialInv(p0: Pool, capacity: nat)
    requires Initial(p0, capacity)
    ensures Inv(p0)
  {
    InitialPlaces(p0, capacity);
    InitialBalance(p0, capacity);
    BQ.NoLostWakeups(p0.bq, capacity, [], p0.bq);
  }

  lemma LastStep(p0: Pool, ls: seq<Label>, p: Pool) returns (m: Pool)
    requires ls != [] && Exec(p0, ls) == Some(p)
    ensures Exec(p0, ls[..|ls| - 1]) == Some(m) && Enabled(m, ls[|ls| - 1]) && p == After(m, ls[|ls| - 1])
  {
    m := Exec(p0, ls[..|ls| - 1]).value;
  }

  lemma {:induction false} RunsKeepInv(p0: Pool, capacity: nat, ls: seq<Label>, p: Pool)
    requires Initial(p0, capacity) && Exec(p0, ls) == Some(p)
    ensures Inv(p)
  {
    if ls == [] {
      InitialInv(p0, capacity);
    } else {
      var m := LastStep(p0, ls, p);
      RunsKeepInv(p0, capacity, ls[..|ls| - 1], m);
      StepKeepsInv(m, ls[|ls| - 1]);
    }
  }

  lemma {:induction false} RunsKeepSlots(p0: Pool, capacity: nat, ls: seq<Label>, p: Pool)
    requires Initial(p0, capacity) && Exec(p0, ls) == Some(p)
    ensures p.bq.q.slots == capacity + 1
  {
    if ls != [] {
      var m := LastStep(p0, ls, p);
      RunsKeepSlots(p0, capacity, ls[..|ls| - 1], m);
      StepKeepsSlots(m, ls[|ls| - 1]);
    }
  }

  // Until the destructor starts, every idle poster may post any log or flush message under any
  // of the three policies.
  lemma EveryPolicyMayPost(p: Pool, t: nat, m: Msg)
    requires !p.stopping && |p.workers| < t < |p.bq.pcs| && p.bq.pcs[t].Idle? && m != Terminate
    ensures Enabled(p, Queue(BQ.Call(t, BQ.Enqueue(m)))) && Enabled(p, Queue(BQ.Call(t, BQ.EnqueueNowait(m))))
    ensures Enabled(p, Queue(BQ.Call(t, BQ.EnqueueIfHaveRoom(m))))
  {
  }

  // ---------- the queue's part of a run ----------

  function QueueRun(ls: seq<Label>): seq<BQ.Label<Msg>> {
    if ls == [] then []
    else
      var l := ls[|ls| - 1];
      QueueRun(ls[..|ls| - 1]) + if l.Queue? then [l.l] else []
  }

  // The queue's steps are by themselves a run of the queue, and push what the pool has recorded.
  lemma {:induction false} QueueRunIsRun(p0: Pool, capacity: nat, ls: seq<Label>, p: Pool)
    requires Initial(p0, capacity) && Exec(p0, ls) == Some(p)
    ensures BQ.Exec(p0.bq, QueueRun(ls)) == Some(p.bq) && BQ.Pushed(QueueRun(ls)) == p.pushed
  {
    if ls != [] {
      var front, l := ls[..|ls| - 1], ls[|ls| - 1];
      var m := LastStep(p0, ls, p);
      QueueRunIsRun(p0, capacity, front, m);
      var qs := QueueRun(front);
      if l.Queue? {
        assert (qs + [l.l])[..|qs|] == qs;
      } else {
        assert QueueRun(ls) == qs;
      }
    }
  }
}
