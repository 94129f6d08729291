/** The multi-producer multi-consumer blocking queue as a step system. One step is one section
    executed under the queue's mutex, or one action outside it: a call, a notification, the
    increment of the discard counter, a timeout or a spurious wakeup. Any number of threads
    interleave in any order. */
module BlockingQueue {
  import opened Options
  import opened CircularQueue

  datatype Op<T> =
    | Enqueue(x: T)             // wait for room
    | EnqueueNowait(x: T)       // overrun the oldest item if there is no room
    | EnqueueIfHaveRoom(x: T)   // drop the new item if there is no room
    | Dequeue
    | DequeueFor                // dequeue with a timeout

  // Where a thread stands.
  datatype Pc<T> =
    | Idle
    | Entering(op: Op<T>)       // about to take the mutex for the first time
    | AsleepFull(x: T)          // waiting on pop_cv_
    | WokenFull(x: T)           // woken, has not tested for room again
    | AsleepEmpty(timed: bool)  // waiting on push_cv_
    | WokenEmpty(timed: bool)   // woken, has not tested for an item again
    | Expired                   // timed out, has not made the final test for an item
    | NotifyingPush             // has pushed and unlocked, push_cv_.notify_one() is still to come
    | NotifyingPop              // has popped and unlocked, pop_cv_.notify_one() is still to come
    | Rejecting                 // found no room and unlocked, ++discard_counter_ is still to come

  datatype Kind = Calm | SleepingProducer | WokenProducer | SleepingConsumer | WokenConsumer |
                  PushNotice | PopNotice | RejectedProducer

  function KindOf<T>(pc: Pc<T>): Kind {
    match pc
    case Idle => Calm
    case Entering(_) => Calm
    case AsleepFull(_) => SleepingProducer
    case WokenFull(_) => WokenProducer
    case AsleepEmpty(_) => SleepingConsumer
    case WokenEmpty(_) => WokenConsumer
    case Expired => WokenConsumer
    case NotifyingPush => PushNotice
    case NotifyingPop => PopNotice
    case Rejecting => RejectedProducer
  }

  datatype State<T> = State(q: Ring<T>, discarded: nat, pcs: seq<Pc<T>>)

  datatype Label<T> =
    | Call(t: nat, op: Op<T>)
    | Push(t: nat, x: T, evicted: Option<T>)
    | Sleep(t: nat)
    | Reject(t: nat, x: T)
    | Take(t: nat, x: T)
    | TimeOut(t: nat)
    | GiveUp(t: nat)                            // dequeue_for returns false
    | NotifyPush(t: nat, woken: Option<nat>)
    | NotifyPop(t: nat, woken: Option<nat>)
    | CountDiscard(t: nat)
    | Spurious(t: nat)
    | ResetOverrun
    | ResetDiscard

  // The item a thread would push in its next locked section, and whether it needs room for it.
  function Offer<T>(pc: Pc<T>): Option<T> {
    match pc
    case Entering(Enqueue(x)) => Some(x)
    case Entering(EnqueueNowait(x)) => Some(x)
    case Entering(EnqueueIfHaveRoom(x)) => Some(x)
    case WokenFull(x) => Some(x)
    case _ => None
  }

  predicate NeedsRoom<T>(pc: Pc<T>) {
    !(pc.Entering? && pc.op.EnqueueNowait?)
  }

  predicate WaitsForRoom<T>(pc: Pc<T>) {
    pc.WokenFull? || (pc.Entering? && pc.op.Enqueue?)
  }

  predicate WantsItem<T>(pc: Pc<T>) {
    pc.WokenEmpty? || pc.Expired? || (pc.Entering? && (pc.op.Dequeue? || pc.op.DequeueFor?))
  }

  predicate Timed<T>(pc: Pc<T>) {
    (pc.WokenEmpty? && pc.timed) || (pc.Entering? && pc.op.DequeueFor?)
  }

  predicate Asleep<T>(pc: Pc<T>) {
    pc.AsleepFull? || pc.AsleepEmpty?
  }

  function Awake<T>(pc: Pc<T>): Pc<T>
    requires Asleep(pc)
  {
    if pc.AsleepFull? then WokenFull(pc.x) else WokenEmpty(pc.timed)
  }

  // notify_one wakes some sleeper of the condition variable, or nobody if none is asleep.
  ghost predicate CanWake<T>(s: State<T>, woken: Option<nat>, kind: Kind) {
    match woken
    case None => Count(s.pcs, kind) == 0
    case Some(u) => u < |s.pcs| && KindOf(s.pcs[u]) == kind
  }

  ghost predicate Enabled<T>(s: State<T>, l: Label<T>) {
    match l
    case Call(t, _) => t < |s.pcs| && s.pcs[t].Idle?
    case Push(t, x, evicted) =>
      && t < |s.pcs| && Offer(s.pcs[t]) == Some(x)
      && (NeedsRoom(s.pcs[t]) ==> !s.q.Full())
      && evicted == (if s.q.Full() then Some((s.q.items + [x])[0]) else None)
    case Sleep(t) =>
      && t < |s.pcs|
      && (|| (WaitsForRoom(s.pcs[t]) && s.q.Full())
          || (WantsItem(s.pcs[t]) && !s.pcs[t].Expired? && s.q.items == []))
    case Reject(t, x) => t < |s.pcs| && s.pcs[t] == Entering(EnqueueIfHaveRoom(x)) && s.q.Full()
    case Take(t, x) => t < |s.pcs| && WantsItem(s.pcs[t]) && s.q.items != [] && x == s.q.items[0]
    case TimeOut(t) => t < |s.pcs| && (s.pcs[t].AsleepEmpty? || s.pcs[t].WokenEmpty?) && s.pcs[t].timed
    case GiveUp(t) => t < |s.pcs| && s.pcs[t].Expired? && s.q.items == []
    case NotifyPush(t, woken) => t < |s.pcs| && s.pcs[t].NotifyingPush? && CanWake(s, woken, SleepingConsumer)
    case NotifyPop(t, woken) => t < |s.pcs| && s.pcs[t].NotifyingPop? && CanWake(s, woken, SleepingProducer)
    case CountDiscard(t) => t < |s.pcs| && s.pcs[t].Rejecting?
    case Spurious(t) => t < |s.pcs| && Asleep(s.pcs[t])
    case ResetOverrun => true
    case ResetDiscard => true
  }

  ghost function Wake<T>(pcs: seq<Pc<T>>, woken: Option<nat>): (r: seq<Pc<T>>)
    requires woken.Some? ==> woken.value < |pcs| && Asleep(pcs[woken.value])
    ensures |r| == |pcs|
  {
    if woken.Some? then pcs[woken.value := Awake(pcs[woken.value])] else pcs
  }

  ghost function After<T>(s: State<T>, l: Label<T>): (s': State<T>)
    requires Enabled(s, l)
    ensures |s'.pcs| == |s.pcs|
  {
    match l
    case Call(t, op) => s.(pcs := s.pcs[t := Entering(op)])
    case Push(t, x, _) => s.(q := s.q.Push(x), pcs := s.pcs[t := NotifyingPush])
    case Sleep(t) =>
      s.(pcs := s.pcs[t := if WaitsForRoom(s.pcs[t]) then AsleepFull(Offer(s.pcs[t]).value)
                           else AsleepEmpty(Timed(s.pcs[t]))])
    case Reject(t, _) => s.(pcs := s.pcs[t := Rejecting])
    case Take(t, _) => s.(q := s.q.Pop(), pcs := s.pcs[t := NotifyingPop])
    case TimeOut(t) => s.(pcs := s.pcs[t := Expired])
    case GiveUp(t) => s.(pcs := s.pcs[t := Idle])
    case NotifyPush(t, woken) => s.(pcs := Wake(s.pcs[t := Idle], woken))
    case NotifyPop(t, woken) => s.(pcs := Wake(s.pcs[t := Idle], woken))
    case CountDiscard(t) => s.(discarded := (s.discarded + 1) % SIZE_MODULUS, pcs := s.pcs[t := Idle])
    case Spurious(t) => s.(pcs := s.pcs[t := Awake(s.pcs[t])])
    case ResetOverrun => s.(q := s.q.(overrun := 0))
    case ResetDiscard => s.(discarded := 0)
  }

  // A queue of a usable capacity before any thread has called it.
  ghost predicate Initial<T>(s: State<T>, capacity: nat) {
    && capacity < SIZE_MODULUS - 1
    && s.q == NewRing(capacity)
    && s.discarded == 0
    && (forall t :: 0 <= t < |s.pcs| ==> s.pcs[t].Idle?)
  }

  // The state reached by a run, if every one of its steps could be taken.
  ghost function Exec<T>(s: State<T>, ls: seq<Label<T>>): Option<State<T>> {
    if ls == [] then Some(s)
    else
      match Exec(s, ls[..|ls| - 1])
      case None => None
      case Some(m) => if Enabled(m, ls[|ls| - 1]) then Some(After(m, ls[|ls| - 1])) else None
  }

  // ---------- counting threads ----------

  function Ind(b: bool): int { if b then 1 else 0 }

  ghost function Kinds<T>(pcs: seq<Pc<T>>): (r: seq<Kind>)
    ensures |r| == |pcs|
  {
    seq(|pcs|, t requires 0 <= t < |pcs| => KindOf(pcs[t]))
  }

  // How many threads are of a kind.
  ghost function Count<T>(pcs: seq<Pc<T>>, k: Kind): nat {
    multiset(Kinds(pcs))[k]
  }

  lemma CountMove<T>(pcs: seq<Pc<T>>, t: nat, pc: Pc<T>)
    requires t < |pcs|
    ensures forall k :: Count(pcs[t := pc], k) == Count(pcs, k) - Ind(k == KindOf(pcs[t])) + Ind(k == KindOf(pc))
  {
    assert Kinds(pcs[t := pc]) == Kinds(pcs)[t := KindOf(pc)];
  }

  lemma CountPositive<T>(pcs: seq<Pc<T>>, k: Kind)
    ensures Count(pcs, k) > 0 <==> exists t :: 0 <= t < |pcs| && KindOf(pcs[t]) == k
  {
    assert Count(pcs, k) > 0 <==> k in Kinds(pcs);
    if t :| 0 <= t < |pcs| && KindOf(pcs[t]) == k {
      assert Kinds(pcs)[t] == k;
    }
  }

  // ---------- no lost wakeups ----------

  ghost predicate ProducersWake<T>(s: State<T>) {
    Count(s.pcs, SleepingProducer) > 0 ==>
      s.q.slots - 1 - |s.q.items| <= Count(s.pcs, PopNotice) + Count(s.pcs, WokenProducer)
  }

  ghost predicate ConsumersWake<T>(s: State<T>) {
    Count(s.pcs, SleepingConsumer) > 0 ==> |s.q.items| <= Count(s.pcs, PushNotice) + Count(s.pcs, WokenConsumer)
  }

  // While a producer sleeps, every free slot is matched by a notification still to be sent or by
  // a producer that was woken and has not looked yet; symmetrically for consumers and items.
  ghost predicate WakeupsKept<T>(s: State<T>) {
    s.q.Valid() && s.q.slots > 0 && ProducersWake(s) && ConsumersWake(s)
  }

  lemma PushKeepsWakeups<T>(s: State<T>, l: Label<T>)
    requires WakeupsKept(s) && Enabled(s, l) && l.Push?
    ensures WakeupsKept(After(s, l))
  {
    CountMove(s.pcs, l.t, NotifyingPush);
  }

  lemma TakeKeepsWakeups<T>(s: State<T>, l: Label<T>)
    requires WakeupsKept(s) && Enabled(s, l) && l.Take?
    ensures WakeupsKept(After(s, l))
  {
    CountMove(s.pcs, l.t, NotifyingPop);
  }

  // A woken thread may go back to sleep only if it has found the queue full or empty.
  lemma ChangeKeepsWakeups<T>(s: State<T>, t: nat, pc: Pc<T>, discarded: nat)
    requires WakeupsKept(s) && t < |s.pcs|
    requires KindOf(s.pcs[t]) != PushNotice && KindOf(s.pcs[t]) != PopNotice
    requires KindOf(pc) == SleepingProducer ==> s.q.Full()
    requires KindOf(pc) == SleepingConsumer ==> s.q.items == []
    requires KindOf(s.pcs[t]) == WokenProducer ==> s.q.Full()
    requires KindOf(s.pcs[t]) == WokenConsumer ==> KindOf(pc) == WokenConsumer || s.q.items == []
    requires KindOf(s.pcs[t]) == SleepingProducer ==> KindOf(pc) == WokenProducer
    requires KindOf(s.pcs[t]) == SleepingConsumer ==> KindOf(pc) == WokenConsumer
    ensures WakeupsKept(State(s.q, discarded, s.pcs[t := pc]))
  {
    CountMove(s.pcs, t, pc);
  }

  lemma MoveKeepsWakeups<T>(s: State<T>, l: Label<T>)
    requires WakeupsKept(s) && Enabled(s, l) && !l.Push? && !l.Take?
    requires !l.NotifyPush? && !l.NotifyPop? && !l.ResetOverrun? && !l.ResetDiscard?
    ensures WakeupsKept(After(s, l))
  {
    var s' := After(s, l);
    ChangeKeepsWakeups(s, l.t, s'.pcs[l.t], s'.discarded);
  }

  function WokenKind(asleep: Kind): Kind {
    if asleep == SleepingConsumer then WokenConsumer else WokenProducer
  }

  lemma WakeCounts<T>(pcs: seq<Pc<T>>, woken: Option<nat>, asleep: Kind)
    requires asleep in {SleepingProducer, SleepingConsumer}
    requires woken.Some? ==> woken.value < |pcs| && KindOf(pcs[woken.value]) == asleep
    ensures forall k :: Count(Wake(pcs, woken), k) ==
                        Count(pcs, k) + if woken.Some? then Ind(k == WokenKind(asleep)) - Ind(k == asleep) else 0
  {
    if woken.Some? {
      CountMove(pcs, woken.value, Awake(pcs[woken.value]));
    }
  }

  // A thread that has sent its notice is idle again, and the thread it has woken rechecks.
  lemma NoticeCounts<T>(pcs: seq<Pc<T>>, t: nat, woken: Option<nat>, notice: Kind, asleep: Kind)
    requires t < |pcs| && KindOf(pcs[t]) == notice && notice in {PushNotice, PopNotice}
    requires asleep in {SleepingProducer, SleepingConsumer}
    requires woken.Some? ==> woken.value < |pcs| && KindOf(pcs[woken.value]) == asleep
    ensures forall k :: Count(Wake(pcs[t := Idle], woken), k) ==
                        Count(pcs, k) - Ind(k == notice) + Ind(k == Calm)
                        + if woken.Some? then Ind(k == WokenKind(asleep)) - Ind(k == asleep) else 0
  {
    CountMove(pcs, t, Idle);
    WakeCounts(pcs[t := Idle], woken, asleep);
  }

  // What a notification does to the numbers of threads of each kind.
  lemma NotifyCounts<T>(s: State<T>, l: Label<T>)
    requires (l.NotifyPush? || l.NotifyPop?) && Enabled(s, l)
    ensures var (notice, asleep) := if l.NotifyPush? then (PushNotice, SleepingConsumer) else (PopNotice, SleepingProducer);
            forall k :: Count(After(s, l).pcs, k) ==
                        Count(s.pcs, k) - Ind(k == notice) + Ind(k == Calm)
                        + if l.woken.Some? then Ind(k == WokenKind(asleep)) - Ind(k == asleep) else 0
  {
    if l.NotifyPush? {
      NoticeCounts(s.pcs, l.t, l.woken, PushNotice, SleepingConsumer);
    } else {
      NoticeCounts(s.pcs, l.t, l.woken, PopNotice, SleepingProducer);
    }
  }

  lemma NotifyKeepsWakeups<T>(s: State<T>, l: Label<T>)
    requires (l.NotifyPush? || l.NotifyPop?) && WakeupsKept(s) && Enabled(s, l)
    ensures WakeupsKept(After(s, l))
  {
    NotifyCounts(s, l);
  }

  lemma StepKeepsWakeups<T>(s: State<T>, l: Label<T>)
    requires WakeupsKept(s) && Enabled(s, l)
    ensures WakeupsKept(After(s, l))
  {
    if l.NotifyPush? || l.NotifyPop? {
      NotifyKeepsWakeups(s, l);
    } else if l.Push? {
      PushKeepsWakeups(s, l);
    } else if l.Take? {
      TakeKeepsWakeups(s, l);
    } else if !l.ResetOverrun? && !l.ResetDiscard? {
      MoveKeepsWakeups(s, l);
    }
  }

  lemma NoThreads<T>(pcs: seq<Pc<T>>, k: Kind)
    requires k != Calm && forall t :: 0 <= t < |pcs| ==> pcs[t].Idle?
    ensures Count(pcs, k) == 0
  {
    CountPositive(pcs, k);
  }

  lemma {:induction false} NoLostWakeups<T>(s0: State<T>, capacity: nat, ls: seq<Label<T>>, s: State<T>)
    requires Initial(s0, capacity) && Exec(s0, ls) == Some(s)
    ensures WakeupsKept(s) && s.q.slots == capacity + 1
  {
    if ls == [] {
      NoThreads(s0.pcs, SleepingProducer);
      NoThreads(s0.pcs, SleepingConsumer);
    } else {
      var m := Exec(s0, ls[..|ls| - 1]).value;
      NoLostWakeups(s0, capacity, ls[..|ls| - 1], m);
      StepKeepsWakeups(m, ls[|ls| - 1]);
    }
  }

  // With room for at least one item, a producer and a consumer are never both asleep unless
  // some thread still has a notification to send or a recheck to make.
  lemma NeverBothStuck<T>(s0: State<T>, capacity: nat, ls: seq<Label<T>>, s: State<T>, a: nat, b: nat)
    requires Initial(s0, capacity) && Exec(s0, ls) == Some(s) && capacity >= 1
    requires a < |s.pcs| && s.pcs[a].AsleepFull?
    requires b < |s.pcs| && s.pcs[b].AsleepEmpty?
    ensures exists t :: 0 <= t < |s.pcs| && KindOf(s.pcs[t]) in {PopNotice, WokenProducer, PushNotice, WokenConsumer}
  {
    NoLostWakeups(s0, capacity, ls, s);
    CountPositive(s.pcs, SleepingProducer);
    CountPositive(s.pcs, SleepingConsumer);
    CountPositive(s.pcs, PopNotice);
    CountPositive(s.pcs, WokenProducer);
    CountPositive(s.pcs, PushNotice);
    CountPositive(s.pcs, WokenConsumer);
    assert KindOf(s.pcs[a]) == SleepingProducer && KindOf(s.pcs[b]) == SleepingConsumer;
  }

  // ---------- first in, first out ----------

  // The items pushed in a run, in the order of their locked sections.
  function Pushed<T>(ls: seq<Label<T>>): seq<T> {
    if ls == [] then []
    else
      var l := ls[|ls| - 1];
      Pushed(ls[..|ls| - 1]) + if l.Push? then [l.x] else []
  }

  function Taken<T>(ls: seq<Label<T>>): seq<T> {
    if ls == [] then []
    else
      var l := ls[|ls| - 1];
      Taken(ls[..|ls| - 1]) + if l.Take? then [l.x] else []
  }

  function Overrun<T>(ls: seq<Label<T>>): seq<T> {
    if ls == [] then []
    else
      var l := ls[|ls| - 1];
      Overrun(ls[..|ls| - 1]) + if l.Push? && l.evicted.Some? then [l.evicted.value] else []
  }

  // For each item that left the queue, in order, whether a consumer took it.
  function Departures<T>(ls: seq<Label<T>>): seq<bool> {
    if ls == [] then []
    else
      var l := ls[|ls| - 1];
      Departures(ls[..|ls| - 1]) +
      if l.Take? then [true] else if l.Push? && l.evicted.Some? then [false] else []
  }

  // The elements of xs whose mark is `which`, in order; elements without a mark count as true.
  function Marked<T>(xs: seq<T>, marks: seq<bool>, which: bool): seq<T> {
    if xs == [] then []
    else
      var n := |xs| - 1;
      Marked(xs[..n], marks, which) + if (if n < |marks| then marks[n] else true) == which then [xs[n]] else []
  }

  lemma {:induction false} MarkedPrefix<T>(xs: seq<T>, marks: seq<bool>, more: seq<bool>, which: bool)
    requires |xs| <= |marks|
    ensures Marked(xs, marks + more, which) == Marked(xs, marks, which)
  {
    if xs != [] {
      MarkedPrefix(xs[..|xs| - 1], marks, more, which);
    }
  }

  lemma {:induction false} MarkedSplit<T>(xs: seq<T>, ys: seq<T>, marks: seq<bool>, which: bool)
    requires |xs| == |marks|
    ensures Marked(xs + ys, marks, which) == Marked(xs, marks, which) + if which then ys else []
  {
    if ys == [] {
      assert xs + ys == xs;
    } else {
      var n := |ys| - 1;
      assert (xs + ys)[..|xs + ys| - 1] == xs + ys[..n];
      MarkedSplit(xs, ys[..n], marks, which);
      assert ys == ys[..n] + [ys[n]];
      if which {
        assert Marked(xs, marks, which) + ys == (Marked(xs, marks, which) + ys[..n]) + [ys[n]];
      }
    }
  }

  // What left the queue, split by its fate, and what is still there, account for all pushes.
  ghost predicate Accounted<T>(pushed: seq<T>, marks: seq<bool>, taken: seq<T>, overrun: seq<T>, q: seq<T>) {
    && |pushed| == |marks| + |q|
    && pushed[|marks|..] == q
    && taken == Marked(pushed[..|marks|], marks, true)
    && overrun == Marked(pushed[..|marks|], marks, false)
  }

  ghost predicate InOrder<T>(s: State<T>, ls: seq<Label<T>>) {
    Accounted(Pushed(ls), Departures(ls), Taken(ls), Overrun(ls), s.q.items)
  }

  lemma MarkedSnoc<T>(xs: seq<T>, x: T, marks: seq<bool>, mark: bool, which: bool)
    requires |xs| == |marks|
    ensures Marked(xs + [x], marks + [mark], which) == Marked(xs, marks, which) + if mark == which then [x] else []
  {
    assert (xs + [x])[..|xs|] == xs;
    MarkedPrefix(xs, marks, [mark], which);
  }

  lemma HistorySnoc<T>(ls: seq<Label<T>>, l: Label<T>)
    ensures Pushed(ls + [l]) == if l.Push? then Pushed(ls) + [l.x] else Pushed(ls)
    ensures Taken(ls + [l]) == if l.Take? then Taken(ls) + [l.x] else Taken(ls)
    ensures Overrun(ls + [l]) == if l.Push? && l.evicted.Some? then Overrun(ls) + [l.evicted.value] else Overrun(ls)
    ensures Departures(ls + [l]) == if l.Take? then Departures(ls) + [true]
                                    else if l.Push? && l.evicted.Some? then Departures(ls) + [false]
                                    else Departures(ls)
  {
    assert (ls + [l])[..|ls + [l]| - 1] == ls;
  }

  lemma ItemArrives<T>(pushed: seq<T>, marks: seq<bool>, taken: seq<T>, overrun: seq<T>, q: seq<T>, x: T)
    requires Accounted(pushed, marks, taken, overrun, q)
    ensures Accounted(pushed + [x], marks, taken, overrun, q + [x])
  {
    assert (pushed + [x])[..|marks|] == pushed[..|marks|];
  }

  lemma HeadIsTaken<T>(pushed: seq<T>, marks: seq<bool>, taken: seq<T>, overrun: seq<T>, q: seq<T>)
    requires Accounted(pushed, marks, taken, overrun, q) && q != []
    ensures Accounted(pushed, marks + [true], taken + [q[0]], overrun, q[1..])
  {
    assert pushed[..|marks| + 1] == pushed[..|marks|] + [q[0]];
    MarkedSnoc(pushed[..|marks|], q[0], marks, true, true);
    MarkedSnoc(pushed[..|marks|], q[0], marks, true, false);
  }

  lemma HeadIsOverrun<T>(pushed: seq<T>, marks: seq<bool>, taken: seq<T>, overrun: seq<T>, q: seq<T>)
    requires Accounted(pushed, marks, taken, overrun, q) && q != []
    ensures Accounted(pushed, marks + [false], taken, overrun + [q[0]], q[1..])
  {
    assert pushed[..|marks| + 1] == pushed[..|marks|] + [q[0]];
    MarkedSnoc(pushed[..|marks|], q[0], marks, false, true);
    MarkedSnoc(pushed[..|marks|], q[0], marks, false, false);
  }

  lemma StepKeepsOrder<T>(m: State<T>, ls: seq<Label<T>>, l: Label<T>)
    requires m.q.Valid() && m.q.slots > 0 && Enabled(m, l) && InOrder(m, ls)
    ensures InOrder(After(m, l), ls + [l])
  {
    HistorySnoc(ls, l);
    var pushed, marks, taken, overrun, q := Pushed(ls), Departures(ls), Taken(ls), Overrun(ls), m.q.items;
    if l.Take? {
      HeadIsTaken(pushed, marks, taken, overrun, q);
    } else if l.Push? {
      ItemArrives(pushed, marks, taken, overrun, q, l.x);
      if l.evicted.Some? {
        HeadIsOverrun(pushed + [l.x], marks, taken, overrun, q + [l.x]);
      }
    }
  }

  lemma {:induction false} RunsKeepOrder<T>(s0: State<T>, capacity: nat, ls: seq<Label<T>>, s: State<T>)
    requires Initial(s0, capacity) && Exec(s0, ls) == Some(s)
    ensures s.q.Valid() && s.q.slots > 0 && InOrder(s, ls)
  {
    if ls != [] {
      var front := ls[..|ls| - 1];
      var m := Exec(s0, front).value;
      RunsKeepOrder(s0, capacity, front, m);
      StepKeepsOrder(m, front, ls[|ls| - 1]);
      assert front + [ls[|ls| - 1]] == ls;
    }
  }

  // Items taken, followed by the queue, are the accepted pushes in order without exactly those
  // that were overrun, whatever the threads, policies, timeouts and counter resets.
  lemma FifoRefinement<T>(s0: State<T>, capacity: nat, ls: seq<Label<T>>, s: State<T>)
    requires Initial(s0, capacity) && Exec(s0, ls) == Some(s)
    ensures Taken(ls) + s.q.items == Marked(Pushed(ls), Departures(ls), true)
    ensures Overrun(ls) == Marked(Pushed(ls), Departures(ls), false)
  {
    RunsKeepOrder(s0, capacity, ls, s);
    var gone := |Pushed(ls)| - |s.q.items|;
    assert Pushed(ls) == Pushed(ls)[..gone] + Pushed(ls)[gone..];
    MarkedSplit(Pushed(ls)[..gone], Pushed(ls)[gone..], Departures(ls), true);
    MarkedSplit(Pushed(ls)[..gone], Pushed(ls)[gone..], Departures(ls), false);
  }

  // ---------- conservation ----------

  function Rejections<T>(ls: seq<Label<T>>): nat {
    if ls == [] then 0 else Rejections(ls[..|ls| - 1]) + Ind(ls[|ls| - 1].Reject?)
  }

  function Discards<T>(ls: seq<Label<T>>): nat {
    if ls == [] then 0 else Discards(ls[..|ls| - 1]) + Ind(ls[|ls| - 1].CountDiscard?)
  }

  // Locked sections of the three enqueue operations that came to a decision.
  function Attempts<T>(ls: seq<Label<T>>): nat {
    if ls == [] then 0 else Attempts(ls[..|ls| - 1]) + Ind(ls[|ls| - 1].Push? || ls[|ls| - 1].Reject?)
  }

  predicate NoResets<T>(ls: seq<Label<T>>) {
    forall i :: 0 <= i < |ls| ==> !ls[i].ResetOverrun? && !ls[i].ResetDiscard?
  }

  lemma RejectedMove<T>(m: State<T>, l: Label<T>)
    requires Enabled(m, l) && !l.NotifyPush? && !l.NotifyPop? && !l.ResetOverrun? && !l.ResetDiscard?
    ensures After(m, l).pcs == m.pcs[l.t := After(m, l).pcs[l.t]]
    ensures KindOf(m.pcs[l.t]) == RejectedProducer <==> l.CountDiscard?
    ensures KindOf(After(m, l).pcs[l.t]) == RejectedProducer <==> l.Reject?
  {
  }

  lemma RejectedCount<T>(m: State<T>, l: Label<T>)
    requires Enabled(m, l)
    ensures Count(After(m, l).pcs, RejectedProducer) ==
            Count(m.pcs, RejectedProducer) + Ind(l.Reject?) - Ind(l.CountDiscard?)
  {
    if l.NotifyPush? || l.NotifyPop? {
      NotifyCounts(m, l);
    } else if !l.ResetOverrun? && !l.ResetDiscard? {
      var pc := After(m, l).pcs[l.t];
      CountMove(m.pcs, l.t, pc);
      RejectedMove(m, l);
    }
  }

  lemma {:induction false} AttemptsSplit<T>(s0: State<T>, capacity: nat, ls: seq<Label<T>>, s: State<T>)
    requires Initial(s0, capacity) && Exec(s0, ls) == Some(s)
    ensures Attempts(ls) == |Pushed(ls)| + Rejections(ls)
    ensures Rejections(ls) == Discards(ls) + Count(s.pcs, RejectedProducer)
  {
    if ls == [] {
      NoThreads(s0.pcs, RejectedProducer);
    } else {
      var front := ls[..|ls| - 1];
      var m := Exec(s0, front).value;
      AttemptsSplit(s0, capacity, front, m);
      RejectedCount(m, ls[|ls| - 1]);
    }
  }

  // What a step other than a reset does to the two counters.
  lemma StepCounts<T>(m: State<T>, l: Label<T>)
    requires Enabled(m, l) && m.q.slots > 0 && !l.ResetOverrun? && !l.ResetDiscard?
    ensures var s, lossy := After(m, l), l.Push? && l.evicted.Some?;
            && s.q.slots == m.q.slots
            && s.q.overrun == (if lossy then (m.q.overrun + 1) % SIZE_MODULUS else m.q.overrun)
            && s.discarded == (if l.CountDiscard? then (m.discarded + 1) % SIZE_MODULUS else m.discarded)
  {
  }

  lemma {:induction false} CountersAreExact<T>(s0: State<T>, capacity: nat, ls: seq<Label<T>>, s: State<T>)
    requires Initial(s0, capacity) && Exec(s0, ls) == Some(s) && NoResets(ls)
    ensures s.q.slots > 0
    ensures s.q.overrun == |Overrun(ls)| % SIZE_MODULUS && s.discarded == Discards(ls) % SIZE_MODULUS
  {
    if ls != [] {
      var front, l := ls[..|ls| - 1], ls[|ls| - 1];
      var m := Exec(s0, front).value;
      CountersAreExact(s0, capacity, front, m);
      assert l == ls[|ls| - 1] && !l.ResetOverrun? && !l.ResetDiscard?;
      StepCounts(m, l);
      CounterStep(|Overrun(front)|);
      CounterStep(Discards(front));
    }
  }

  lemma {:induction false} FatesSplit<T>(xs: seq<T>, marks: seq<bool>)
    ensures |Marked(xs, marks, true)| + |Marked(xs, marks, false)| == |xs|
  {
    if xs != [] {
      FatesSplit(xs[..|xs| - 1], marks);
    }
  }

  // Under any mix of the three overflow policies every completed attempt is taken, queued,
  // overrun, discarded, or rejected by a producer that has not counted it yet; the two counters
  // are the true numbers of overruns and discards, as size_t.
  lemma Conservation<T>(s0: State<T>, capacity: nat, ls: seq<Label<T>>, s: State<T>)
    requires Initial(s0, capacity) && Exec(s0, ls) == Some(s)
    ensures Attempts(ls) ==
            |Taken(ls)| + |s.q.items| + |Overrun(ls)| + Discards(ls) + Count(s.pcs, RejectedProducer)
    ensures NoResets(ls) ==> s.q.overrun == |Overrun(ls)| % SIZE_MODULUS && s.discarded == Discards(ls) % SIZE_MODULUS
  {
    AttemptsSplit(s0, capacity, ls, s);
    if NoResets(ls) {
      CountersAreExact(s0, capacity, ls, s);
    }
    FifoRefinement(s0, capacity, ls, s);
    FatesSplit(Pushed(ls), Departures(ls));
  }

  // ---------- the block policy alone ----------

  predicate BlockingOnly<T>(ls: seq<Label<T>>) {
    forall i :: 0 <= i < |ls| && ls[i].Call? ==> !ls[i].op.EnqueueNowait? && !ls[i].op.EnqueueIfHaveRoom?
  }

  predicate NoLossy<T>(pcs: seq<Pc<T>>) {
    forall t :: 0 <= t < |pcs| ==>
      && !pcs[t].Rejecting?
      && (pcs[t].Entering? ==> !pcs[t].op.EnqueueNowait? && !pcs[t].op.EnqueueIfHaveRoom?)
  }

  lemma BlockingStaysBlocking<T>(s: State<T>, l: Label<T>)
    requires NoLossy(s.pcs) && Enabled(s, l)
    requires l.Call? ==> !l.op.EnqueueNowait? && !l.op.EnqueueIfHaveRoom?
    ensures NoLossy(After(s, l).pcs) && !l.Reject? && (l.Push? ==> l.evicted.None?)
  {
  }

  // If every producer waits for room, nothing is lost: the taken items followed by the queue are
  // all the pushes, and both loss counters stay 0.
  lemma {:induction false} BlockingLosesNothing<T>(s0: State<T>, capacity: nat, ls: seq<Label<T>>, s: State<T>)
    requires Initial(s0, capacity) && Exec(s0, ls) == Some(s) && BlockingOnly(ls)
    ensures Taken(ls) + s.q.items == Pushed(ls)
    ensures s.q.overrun == 0 && s.discarded == 0 && Overrun(ls) == [] && Rejections(ls) == 0
    ensures NoLossy(s.pcs)
  {
    if ls != [] {
      var front, l := ls[..|ls| - 1], ls[|ls| - 1];
      var m := Exec(s0, front).value;
      BlockingLosesNothing(s0, capacity, front, m);
      NoLostWakeups(s0, capacity, front, m);
      assert l.Call? ==> l == ls[|ls| - 1] && !l.op.EnqueueNowait? && !l.op.EnqueueIfHaveRoom?;
      BlockingStaysBlocking(m, l);
    }
  }

  // ---------- the order of each thread's calls ----------

  // The items a thread has called an enqueue operation with, in the order of its calls.
  function Posted<T>(ls: seq<Label<T>>, t: nat): seq<T> {
    if ls == [] then []
    else
      var l := ls[|ls| - 1];
      Posted(ls[..|ls| - 1], t) +
      if l.Call? && l.t == t && Offer(Entering(l.op)).Some? then [Offer(Entering(l.op)).value] else []
  }

  // The items pushed or rejected in a run, in the order of the locked sections, and by whom.
  function Tried<T>(ls: seq<Label<T>>): seq<T> {
    if ls == [] then []
    else
      var l := ls[|ls| - 1];
      Tried(ls[..|ls| - 1]) + if l.Push? || l.Reject? then [l.x] else []
  }

  function Triers<T>(ls: seq<Label<T>>): (ts: seq<nat>)
    ensures |ts| == |Tried(ls)|
  {
    if ls == [] then []
    else
      var l := ls[|ls| - 1];
      Triers(ls[..|ls| - 1]) + if l.Push? || l.Reject? then [l.t] else []
  }

  // The elements of xs that belong to t, in order.
  function Select<T>(xs: seq<T>, owners: seq<nat>, t: nat): seq<T>
    requires |xs| == |owners|
  {
    if xs == [] then []
    else
      var n := |xs| - 1;
      Select(xs[..n], owners[..n], t) + if owners[n] == t then [xs[n]] else []
  }

  // The item of a call that has not come to a decision yet.
  function Pending<T>(pc: Pc<T>): (r: seq<T>)
    ensures |r| <= 1
  {
    if pc.AsleepFull? then [pc.x]
    else if Offer(pc).Some? then [Offer(pc).value]
    else []
  }

  lemma SelectSnoc<T>(xs: seq<T>, owners: seq<nat>, x: T, owner: nat, t: nat)
    requires |xs| == |owners|
    ensures Select(xs + [x], owners + [owner], t) == Select(xs, owners, t) + if owner == t then [x] else []
  {
    assert (xs + [x])[..|xs|] == xs && (owners + [owner])[..|xs|] == owners;
  }

  lemma TriedSnoc<T>(ls: seq<Label<T>>, l: Label<T>, t: nat)
    ensures Select(Tried(ls + [l]), Triers(ls + [l]), t) ==
            Select(Tried(ls), Triers(ls), t) + if (l.Push? || l.Reject?) && l.t == t then [l.x] else []
    ensures Posted(ls + [l], t) ==
            Posted(ls, t) + if l.Call? && l.t == t && Offer(Entering(l.op)).Some? then [Offer(Entering(l.op)).value] else []
  {
    assert (ls + [l])[..|ls|] == ls;
    if l.Push? || l.Reject? {
      SelectSnoc(Tried(ls), Triers(ls), l.x, l.t, t);
    } else {
      assert Tried(ls + [l]) == Tried(ls) && Triers(ls + [l]) == Triers(ls);
    }
  }

  lemma NotifyKeepsPending<T>(s: State<T>, l: Label<T>, t: nat)
    requires (l.NotifyPush? || l.NotifyPop?) && Enabled(s, l) && t < |s.pcs|
    ensures Pending(After(s, l).pcs[t]) == Pending(s.pcs[t])
  {
  }

  // A call makes its item pending, a push or a rejection settles it, and no other step of this
  // or of another thread does anything to it.
  lemma StepKeepsPending<T>(s: State<T>, l: Label<T>, t: nat)
    requires Enabled(s, l) && t < |s.pcs|
    ensures var before, after := Pending(s.pcs[t]), Pending(After(s, l).pcs[t]);
            if l.Call? && l.t == t then before == [] && after == Pending(Entering(l.op))
            else if (l.Push? || l.Reject?) && l.t == t then before == [l.x] && after == []
            else after == before
  {
    if l.NotifyPush? || l.NotifyPop? {
      NotifyKeepsPending(s, l, t);
    } else if !l.ResetOverrun? && !l.ResetDiscard? {
      assert l.t != t ==> After(s, l).pcs[t] == s.pcs[t];
    }
  }

  // What a thread has posted is, in the order of its calls, what it has pushed or seen rejected,
  // followed by at most one item that is still pending.
  ghost predicate CallsInOrder<T>(s: State<T>, ls: seq<Label<T>>, t: nat)
    requires t < |s.pcs|
  {
    Posted(ls, t) == Select(Tried(ls), Triers(ls), t) + Pending(s.pcs[t])
  }

  lemma PostedStep<T>(m: State<T>, ls: seq<Label<T>>, l: Label<T>, t: nat)
    requires Enabled(m, l) && t < |m.pcs|
    requires CallsInOrder(m, ls, t)
    ensures CallsInOrder(After(m, l), ls + [l], t)
  {
    StepKeepsPending(m, l, t);
    TriedSnoc(ls, l, t);
  }

  lemma LastStep<T>(s0: State<T>, ls: seq<Label<T>>, s: State<T>) returns (m: State<T>)
    requires ls != [] && Exec(s0, ls) == Some(s)
    ensures Exec(s0, ls[..|ls| - 1]) == Some(m) && Enabled(m, ls[|ls| - 1]) && s == After(m, ls[|ls| - 1])
  {
    m := Exec(s0, ls[..|ls| - 1]).value;
  }

  // In every run each thread's calls settle in the order in which it makes them.
  lemma {:induction false} PostedInOrder<T>(s0: State<T>, capacity: nat, ls: seq<Label<T>>, s: State<T>, t: nat)
    requires Initial(s0, capacity) && Exec(s0, ls) == Some(s) && t < |s.pcs|
    ensures CallsInOrder(s, ls, t)
  {
    if ls == [] {
      assert s.pcs[t].Idle?;
    } else {
      var m := LastStep(s0, ls, s);
      assert ls == ls[..|ls| - 1] + [ls[|ls| - 1]];
      PostedInOrder(s0, capacity, ls[..|ls| - 1], m, t);
      PostedStep(m, ls[..|ls| - 1], ls[|ls| - 1], t);
    }
  }

  lemma {:induction false} TriedArePushed<T>(ls: seq<Label<T>>)
    requires Rejections(ls) == 0
    ensures Tried(ls) == Pushed(ls)
  {
    if ls != [] {
      TriedArePushed(ls[..|ls| - 1]);
    }
  }

  // ---------- what a thread is waiting for ----------

  // The operation a thread has called last.
  function LastCall<T>(ls: seq<Label<T>>, t: nat): Option<Op<T>> {
    if ls == [] then None
    else
      var l := ls[|ls| - 1];
      if l.Call? && l.t == t then Some(l.op) else LastCall(ls[..|ls| - 1], t)
  }

  // A thread stands where only its own operation leads: it sleeps for room only in the blocking
  // enqueue, is rejected only in the one that needs room, and gives up only in the timed dequeue.
  ghost predicate StandsFor<T>(pc: Pc<T>, op: Option<Op<T>>) {
    match pc
    case Idle => true
    case Entering(o) => op == Some(o)
    case AsleepFull(x) => op == Some(Enqueue(x))
    case WokenFull(x) => op == Some(Enqueue(x))
    case AsleepEmpty(timed) => op == Some(if timed then DequeueFor else Dequeue)
    case WokenEmpty(timed) => op == Some(if timed then DequeueFor else Dequeue)
    case Expired => op == Some(DequeueFor)
    case NotifyingPush => op.Some? && (op.value.Enqueue? || op.value.EnqueueNowait? || op.value.EnqueueIfHaveRoom?)
    case NotifyingPop => op.Some? && (op.value.Dequeue? || op.value.DequeueFor?)
    case Rejecting => op.Some? && op.value.EnqueueIfHaveRoom?
  }

  lemma StepKeepsStanding<T>(s: State<T>, l: Label<T>, op: Option<Op<T>>, t: nat)
    requires Enabled(s, l) && t < |s.pcs| && StandsFor(s.pcs[t], op)
    ensures StandsFor(After(s, l).pcs[t], if l.Call? && l.t == t then Some(l.op) else op)
  {
    if l.NotifyPush? || l.NotifyPop? {
      NotifyKeepsStanding(s, l, op, t);
    } else if !l.ResetOverrun? && !l.ResetDiscard? {
      assert l.t != t ==> After(s, l).pcs[t] == s.pcs[t];
    }
  }

  lemma NotifyKeepsStanding<T>(s: State<T>, l: Label<T>, op: Option<Op<T>>, t: nat)
    requires (l.NotifyPush? || l.NotifyPop?) && Enabled(s, l) && t < |s.pcs| && StandsFor(s.pcs[t], op)
    ensures StandsFor(After(s, l).pcs[t], op)
  {
  }

  lemma {:induction false} ThreadsStandForCalls<T>(s0: State<T>, capacity: nat, ls: seq<Label<T>>, s: State<T>, t: nat)
    requires Initial(s0, capacity) && Exec(s0, ls) == Some(s) && t < |s.pcs|
    ensures StandsFor(s.pcs[t], LastCall(ls, t))
  {
    if ls == [] {
      assert s.pcs[t].Idle?;
    } else {
      var m := LastStep(s0, ls, s);
      ThreadsStandForCalls(s0, capacity, ls[..|ls| - 1], m, t);
      StepKeepsStanding(m, ls[|ls| - 1], LastCall(ls[..|ls| - 1], t), t);
    }
  }

  // A consumer that waits with a timeout can always leave; one without never does so empty-handed.
  lemma OnlyTimedWaitsEnd<T>(s0: State<T>, capacity: nat, ls: seq<Label<T>>, s: State<T>, t: nat)
    requires Initial(s0, capacity) && Exec(s0, ls) == Some(s) && t < |s.pcs|
    ensures s.pcs[t].AsleepEmpty? && LastCall(ls, t) == Some(DequeueFor) ==> Enabled(s, TimeOut(t))
    ensures LastCall(ls, t) == Some(Dequeue) ==> !Enabled(s, TimeOut(t)) && !Enabled(s, GiveUp(t))
  {
    ThreadsStandForCalls(s0, capacity, ls, s, t);
  }

  // The policy of the call decides what becomes of an item. It overruns another one only under
  // the overrun policy, and is rejected only under the discard policy; both only if there is no
  // room, and a producer that waits for room sleeps only then.
  lemma PolicyDecides<T>(s0: State<T>, capacity: nat, ls: seq<Label<T>>, s: State<T>, l: Label<T>)
    requires Initial(s0, capacity) && Exec(s0, ls) == Some(s) && Enabled(s, l)
    ensures l.Push? ==>
              LastCall(ls, l.t) in {Some(Enqueue(l.x)), Some(EnqueueNowait(l.x)), Some(EnqueueIfHaveRoom(l.x))}
    ensures l.Push? ==> (l.evicted.Some? <==> s.q.Full())
    ensures l.Push? && l.evicted.Some? ==> LastCall(ls, l.t) == Some(EnqueueNowait(l.x))
    ensures l.Reject? ==> LastCall(ls, l.t) == Some(EnqueueIfHaveRoom(l.x)) && s.q.Full()
    ensures l.Take? ==> LastCall(ls, l.t) in {Some(Dequeue), Some(DequeueFor)} && s.q.items != [] && l.x == s.q.items[0]
    ensures l.Sleep? ==>
              match After(s, l).pcs[l.t]
              case AsleepFull(x) => LastCall(ls, l.t) == Some(Enqueue(x)) && s.q.Full()
              case AsleepEmpty(_) => LastCall(ls, l.t) in {Some(Dequeue), Some(DequeueFor)} && s.q.items == []
              case _ => false
  {
    if l.Push? || l.Reject? || l.Take? || l.Sleep? {
      ThreadsStandForCalls(s0, capacity, ls, s, l.t);
    }
  }
}
