/** The in-process bus of the mesh (`Cluster`): broadcasting a unit puts it
    on a FIFO queue and drains the queue, handing every dequeued unit to
    every listener in list order and queueing what the listeners return. */
module Bus {

  /** A listener maps a delivered unit to the units it emits in reply. */
  type Listener = string -> seq<string>

  /** One call of a listener: its position in the list and the unit. */
  datatype Delivery = Delivery(listener: nat, unit: string)

  /** The units the listeners return for `m`, in listener order. */
  function Produced(ls: seq<Listener>, m: string): seq<string>
    decreases |ls|
  {
    if ls == [] then [] else Produced(ls[..|ls| - 1], m) + ls[|ls| - 1](m)
  }

  /** Everything the listeners return for the units `ms`, in order. */
  function Stream(ls: seq<Listener>, ms: seq<string>): seq<string>
    decreases |ms|
  {
    if ms == [] then [] else Stream(ls, ms[..|ms| - 1]) + Produced(ls, ms[|ms| - 1])
  }

  /** The calls that hand `m` to each of `n` listeners, in list order. */
  function CallsFor(n: nat, m: string): seq<Delivery> {
    seq(n, i requires 0 <= i < n => Delivery(i, m))
  }

  /** The calls for a sequence of dequeued units. */
  function Deliveries(n: nat, ms: seq<string>): seq<Delivery>
    decreases |ms|
  {
    if ms == [] then [] else Deliveries(n, ms[..|ms| - 1]) + CallsFor(n, ms[|ms| - 1])
  }

  /** One more unit: the definition of `Stream` read at `ms + [m]`. */
  lemma StreamSnoc(ls: seq<Listener>, ms: seq<string>, m: string)
    ensures Stream(ls, ms + [m]) == Stream(ls, ms) + Produced(ls, m)
  {
    var ext := ms + [m];
    assert ext[..|ext| - 1] == ms;
  }

  lemma {:induction false} StreamAppend(ls: seq<Listener>, a: seq<string>, b: seq<string>)
    ensures Stream(ls, a + b) == Stream(ls, a) + Stream(ls, b)
    decreases |b|
  {
    if b == [] {
      assert a + b == a;
    } else {
      var init, last := b[..|b| - 1], b[|b| - 1];
      assert b == init + [last];
      assert a + b == (a + init) + [last];
      calc {
        Stream(ls, a + b);
        { StreamSnoc(ls, a + init, last); }
        Stream(ls, a + init) + Produced(ls, last);
        { StreamAppend(ls, a, init); }
        (Stream(ls, a) + Stream(ls, init)) + Produced(ls, last);
        Stream(ls, a) + (Stream(ls, init) + Produced(ls, last));
        { StreamSnoc(ls, init, last); }
        Stream(ls, a) + Stream(ls, b);
      }
    }
  }

  /** Listeners that never reply produce nothing. */
  lemma {:induction false} SilentStream(ls: seq<Listener>, ms: seq<string>)
    requires forall i, m :: 0 <= i < |ls| ==> ls[i](m) == []
    ensures Stream(ls, ms) == []
    decreases |ms|
  {
    if ms != [] {
      SilentStream(ls, ms[..|ms| - 1]);
      SilentProduced(ls, ms[|ms| - 1]);
    }
  }

  lemma {:induction false} SilentProduced(ls: seq<Listener>, m: string)
    requires forall i, m :: 0 <= i < |ls| ==> ls[i](m) == []
    ensures Produced(ls, m) == []
    decreases |ls|
  {
    if ls != [] {
      SilentProduced(ls[..|ls| - 1], m);
    }
  }

  /** When no listener replies, the drain delivers the queued units and the
      new one, exactly once each and in order, given fuel for them. */
  lemma QuietBusDrains(pending: seq<string>, msg: string, ls: seq<Listener>,
                       dequeued: seq<string>, queue: seq<string>, fuel: nat)
    requires forall i, m :: 0 <= i < |ls| ==> ls[i](m) == []
    requires pending + [msg] + Stream(ls, dequeued) == dequeued + queue
    requires queue == [] || |dequeued| == fuel
    requires fuel > |pending|
    ensures queue == [] && dequeued == pending + [msg]
  {
    SilentStream(ls, dequeued);
    assert pending + [msg] == dequeued + queue;
  }

  /** One turn of the drain keeps the FIFO equation: the front unit is
      moved to the dequeued ones and its replies go to the back. */
  lemma DrainStep(queued: seq<string>, ls: seq<Listener>, before: seq<string>, q: seq<string>)
    requires q != [] && queued + Stream(ls, before) == before + q
    ensures queued + Stream(ls, before + [q[0]]) == (before + [q[0]]) + (q[1..] + Produced(ls, q[0]))
  {
    var head, rest, made := q[0], q[1..], Produced(ls, q[0]);
    StreamSnoc(ls, before, head);
    assert q == [head] + rest;
    calc {
      queued + Stream(ls, before + [head]);
      queued + (Stream(ls, before) + made);
      (queued + Stream(ls, before)) + made;
      (before + ([head] + rest)) + made;
      (before + [head]) + (rest + made);
    }
  }

  /** ... and the order of cause and effect: each dequeued unit was queued
      before any reply to it or to a later unit. */
  lemma CauseBeforeEffect(queued: seq<string>, ls: seq<Listener>, before: seq<string>, q: seq<string>)
    requires q != [] && queued + Stream(ls, before) == before + q
    requires forall k :: 0 <= k < |before| ==> k < |queued| + |Stream(ls, before[..k])|
    ensures var after := before + [q[0]];
            forall k :: 0 <= k < |after| ==> k < |queued| + |Stream(ls, after[..k])|
  {
    var after := before + [q[0]];
    assert after[..|before|] == before;
    forall k | 0 <= k < |before| ensures after[..k] == before[..k] {
    }
  }

  class Cluster {
    var listeners: seq<Listener>
    /** `message_queue`, front first. */
    var queue: seq<string>

    constructor ()
      ensures listeners == [] && queue == []
    {
      listeners := [];
      queue := [];
    }

    /** The `for` body of lines 18-22 for one dequeued unit: every listener
        in list order gets the unit, and its replies go to the back of the
        queue. */
    method HandOut(message: string) returns (made: seq<Delivery>)
      modifies this`queue
      ensures queue == old(queue) + Produced(listeners, message)
      ensures made == CallsFor(|listeners|, message)
    {
      made := [];
      var i := 0;
      while i < |listeners|
        invariant 0 <= i <= |listeners|
        invariant queue == old(queue) + Produced(listeners[..i], message)
        invariant made == CallsFor(i, message)
      {
        var replies := listeners[i](message);
        Enqueue(replies);
        assert listeners[..i + 1][..i] == listeners[..i];
        made := made + [Delivery(i, message)];
        i := i + 1;
      }
      assert listeners[..i] == listeners;
    }

    /** `message_queue.put` for each reply, in order. */
    method Enqueue(replies: seq<string>)
      modifies this`queue
      ensures queue == old(queue) + replies
    {
      var j := 0;
      while j < |replies|
        invariant 0 <= j <= |replies|
        invariant queue == old(queue) + replies[..j]
      {
        queue := queue + [replies[j]];
        j := j + 1;
      }
      assert replies[..j] == replies;
    }

    /** `broadcast(msg)`: enqueue, then drain. A listener may keep replying
        forever, so the drain takes at most `fuel` units off the queue; it
        stops early exactly when the queue is empty. `dequeued` lists the
        units taken off, `calls` the listener calls made. The FIFO equation
        says that the units taken off, followed by those still queued, are
        the units queued before, the new one, and the replies, in that
        order; a unit is taken off before any reply it causes is queued. */
    method Broadcast(msg: string, fuel: nat) returns (dequeued: seq<string>, calls: seq<Delivery>)
      modifies this`queue
      ensures old(queue) + [msg] + Stream(listeners, dequeued) == dequeued + queue
      ensures calls == Deliveries(|listeners|, dequeued)
      ensures |dequeued| <= fuel && (queue == [] || |dequeued| == fuel)
      ensures forall k :: 0 <= k < |dequeued| ==> k < |old(queue) + [msg]| + |Stream(listeners, dequeued[..k])|
    {
      ghost var pending := queue;
      queue := queue + [msg];
      dequeued, calls := [], [];
      while queue != [] && |dequeued| < fuel
        invariant |dequeued| <= fuel
        invariant pending + [msg] + Stream(listeners, dequeued) == dequeued + queue
        invariant calls == Deliveries(|listeners|, dequeued)
        invariant forall k :: 0 <= k < |dequeued| ==> k < |pending + [msg]| + |Stream(listeners, dequeued[..k])|
        decreases fuel - |dequeued|
      {
        ghost var q0, before := queue, dequeued;
        var message := queue[0];
        queue := queue[1..];
        var made := HandOut(message);
        calls := calls + made;
        dequeued := dequeued + [message];
        DrainStep(pending + [msg], listeners, before, q0);
        CauseBeforeEffect(pending + [msg], listeners, before, q0);
        assert dequeued[..|dequeued| - 1] == before;
      }
    }
  }
}
