/** The code of the blocking queue, one method per section that runs under the mutex (or per
    action on the atomic counter). Each method is proved to be a step of the step system. */
module MpmcQueue {
  import opened Options
  import opened CircularQueue
  import opened BlockingQueue

  class MpmcBlockingQueue<T(0)> {
    const q: CircularQ<T>
    var discardCounter: nat
    var threads: seq<Pc<T>>  // where every thread using the queue stands

    ghost predicate Valid()
      reads this, q, q.v
    {
      q.Valid() && q.maxItems > 0
    }

    ghost function View(): State<T>
      reads this, q, q.v
      requires Valid()
    {
      State(q.Abs(), discardCounter, threads)
    }

    constructor (maxItems: nat, users: nat)
      requires maxItems < SIZE_MODULUS - 1
      ensures Valid() && fresh(q) && fresh(q.v)
      ensures Initial(View(), maxItems) && |threads| == users
    {
      q := new CircularQ<T>(maxItems);
      discardCounter := 0;
      threads := seq(users, _ => Idle);
    }

    // enqueue: one test of the predicate of pop_cv_.wait, and the push if it holds.
    method EnqueueSection(t: nat) returns (ghost l: Label<T>)
      requires Valid() && t < |threads| && WaitsForRoom(threads[t])
      modifies this, q, q.v
      ensures Valid() && q.v == old(q.v)
      ensures Enabled(old(View()), l) && View() == After(old(View()), l) && (l.Push? || l.Sleep?) && l.t == t
    {
      q.QueriesAreExact();
      var item := Offer(threads[t]).value;
      if q.Full() {
        l := Sleep(t);
        threads := threads[t := AsleepFull(item)];
      } else {
        l := Push(t, item, None);
        q.PushBack(item);
        threads := threads[t := NotifyingPush];
      }
    }

    method EnqueueNowaitSection(t: nat) returns (ghost l: Label<T>)
      requires Valid() && t < |threads| && threads[t].Entering? && threads[t].op.EnqueueNowait?
      modifies this, q, q.v
      ensures Valid() && q.v == old(q.v)
      ensures Enabled(old(View()), l) && View() == After(old(View()), l) && l.Push? && l.t == t
    {
      var item := threads[t].op.x;
      l := Push(t, item, if q.Abs().Full() then Some((q.Abs().items + [item])[0]) else None);
      q.PushBack(item);
      threads := threads[t := NotifyingPush];
    }

    method EnqueueIfHaveRoomSection(t: nat) returns (pushed: bool, ghost l: Label<T>)
      requires Valid() && t < |threads| && threads[t].Entering? && threads[t].op.EnqueueIfHaveRoom?
      modifies this, q, q.v
      ensures Valid() && q.v == old(q.v)
      ensures Enabled(old(View()), l) && View() == After(old(View()), l) && (l.Push? || l.Reject?) && l.t == t
      ensures pushed <==> l.Push?
    {
      q.QueriesAreExact();
      var item := threads[t].op.x;
      pushed := false;
      l := Reject(t, item);
      if !q.Full() {
        l := Push(t, item, None);
        q.PushBack(item);
        pushed := true;
      }
      threads := threads[t := if pushed then NotifyingPush else Rejecting];
    }

    // dequeue and dequeue_for: one test of the predicate of push_cv_.wait, and the pop if it holds.
    // A consumer whose time is up gives up instead of going back to sleep.
    method DequeueSection(t: nat) returns (popped: Option<T>, ghost l: Label<T>)
      requires Valid() && t < |threads| && WantsItem(threads[t])
      modifies this, q
      ensures Valid() && q.v == old(q.v)
      ensures Enabled(old(View()), l) && View() == After(old(View()), l) && (l.Take? || l.Sleep? || l.GiveUp?) && l.t == t
      ensures popped == if l.Take? then Some(l.x) else None
    {
      q.QueriesAreExact();
      if !q.Empty() {
        var item := q.Front();
        q.PopFront();
        popped := Some(item);
        l := Take(t, item);
        threads := threads[t := NotifyingPop];
      } else if threads[t].Expired? {
        popped, l := None, GiveUp(t);
        threads := threads[t := Idle];
      } else {
        popped, l := None, Sleep(t);
        threads := threads[t := AsleepEmpty(Timed(threads[t]))];
      }
    }

    method CountDiscarded(t: nat)
      requires Valid() && t < |threads| && threads[t].Rejecting?
      modifies this
      ensures Valid() && Enabled(old(View()), CountDiscard(t)) && View() == After(old(View()), CountDiscard(t))
    {
      discardCounter := (discardCounter + 1) % SIZE_MODULUS;
      threads := threads[t := Idle];
    }

    method ResetOverrunCounter()
      requires Valid()
      modifies q
      ensures Valid() && q.v == old(q.v) && View() == After(old(View()), BlockingQueue.ResetOverrun)
    {
      q.ResetOverrunCounter();
    }

    method ResetDiscardCounter()
      requires Valid()
      modifies this
      ensures Valid() && View() == After(old(View()), BlockingQueue.ResetDiscard)
    {
      discardCounter := 0;
    }
  }
}
