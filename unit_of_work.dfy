/** `AggregatedUnitOfWork` and its factory: a unit of work made of child
    units of work, every operation fanned out over the children in list
    order.

    A child is known by an id. What a child does when called is the
    function parameter `behave`: the exception the call raises, if any.
    Exceptions are compared by identity, as Python's default `==` on
    exception objects does. */
module UnitOfWork {
  import opened Wrappers

  /** An exception object, known by its identity. */
  datatype Exc = Exc(id: nat)

  /** The operations of a unit of work; `Exit` carries the exception in
      flight (`exc_val`), if any. */
  datatype Op = Commit | Rollback | Close | Enter | Exit(pending: Option<Exc>)

  /** One call of an operation on a child. */
  datatype ChildCall = ChildCall(child: nat, op: Op)

  /** The calls of `op` on each of `uows`, in order. */
  function CallsOf(uows: seq<nat>, op: Op): seq<ChildCall> {
    seq(|uows|, i requires 0 <= i < |uows| => ChildCall(uows[i], op))
  }

  // -----------------------------------------------------------------------
  // commit, rollback, close, __enter__

  /** The position of the first child whose call of `op` raises, or the
      number of children when none does. */
  function FirstRaise(uows: seq<nat>, op: Op, behave: ChildCall -> Option<Exc>): (k: nat)
    ensures k <= |uows|
    ensures forall i :: 0 <= i < k ==> behave(ChildCall(uows[i], op)).None?
    ensures k < |uows| ==> behave(ChildCall(uows[k], op)).Some?
    decreases |uows|
  {
    if uows == [] then 0
    else if behave(ChildCall(uows[0], op)).Some? then 0
    else 1 + FirstRaise(uows[1..], op, behave)
  }

  /** The position is determined by those two facts. */
  lemma {:induction false} FirstRaiseIs(uows: seq<nat>, op: Op, behave: ChildCall -> Option<Exc>, k: nat)
    requires k <= |uows|
    requires forall i :: 0 <= i < k ==> behave(ChildCall(uows[i], op)).None?
    requires k < |uows| ==> behave(ChildCall(uows[k], op)).Some?
    ensures FirstRaise(uows, op, behave) == k
    decreases k
  {
    if k > 0 {
      FirstRaiseIs(uows[1..], op, behave, k - 1);
    }
  }

  /** The calls a loop without `try` makes: up to and including the first
      that raises. */
  function Attempted(uows: seq<nat>, op: Op, behave: ChildCall -> Option<Exc>): seq<ChildCall> {
    var k := FirstRaise(uows, op, behave);
    CallsOf(uows[..if k < |uows| then k + 1 else k], op)
  }

  /** What such a loop raises: the first child exception, if any. */
  function Raised(uows: seq<nat>, op: Op, behave: ChildCall -> Option<Exc>): Option<Exc> {
    var k := FirstRaise(uows, op, behave);
    if k < |uows| then behave(ChildCall(uows[k], op)) else None
  }

  /** Such a loop completes exactly when no child raises, and then every
      child was called once, in list order; otherwise the calls stop at
      the first child that raises, whose exception propagates. */
  lemma FanOutMeaning(uows: seq<nat>, op: Op, behave: ChildCall -> Option<Exc>)
    ensures Raised(uows, op, behave).None? <==> forall i :: 0 <= i < |uows| ==> behave(ChildCall(uows[i], op)).None?
    ensures Raised(uows, op, behave).None? ==> Attempted(uows, op, behave) == CallsOf(uows, op)
    ensures Raised(uows, op, behave).Some? ==>
              var calls := Attempted(uows, op, behave);
              && 0 < |calls| <= |uows|
              && Raised(uows, op, behave) == behave(calls[|calls| - 1])
              && forall i :: 0 <= i < |calls| - 1 ==> behave(calls[i]).None?
  {
    var k := FirstRaise(uows, op, behave);
    if k == |uows| {
      assert uows[..k] == uows;
    }
  }

  // -----------------------------------------------------------------------
  // __exit__

  /** What the exit of one child leaves in the log: an exception it raises
      other than the one in flight. */
  function Foreign(pending: Option<Exc>, raised: Option<Exc>): seq<Exc> {
    if raised.Some? && raised != pending then [raised.value] else []
  }

  /** The exceptions `__exit__` logs, in child order. */
  function Logged(uows: seq<nat>, pending: Option<Exc>, behave: ChildCall -> Option<Exc>): seq<Exc>
    decreases |uows|
  {
    if uows == [] then []
    else
      var last := uows[|uows| - 1];
      Logged(uows[..|uows| - 1], pending, behave) + Foreign(pending, behave(ChildCall(last, Exit(pending))))
  }

  /** An exception is logged exactly when some child's exit raised it and it
      is not the exception in flight: a child re-raising the original is
      skipped, and no child exception is lost. */
  lemma {:induction false} LoggedMeaning(uows: seq<nat>, pending: Option<Exc>, behave: ChildCall -> Option<Exc>, e: Exc)
    ensures e in Logged(uows, pending, behave) <==>
              Some(e) != pending && exists i :: 0 <= i < |uows| && behave(ChildCall(uows[i], Exit(pending))) == Some(e)
    decreases |uows|
  {
    if uows != [] {
      var init, last := uows[..|uows| - 1], uows[|uows| - 1];
      LoggedMeaning(init, pending, behave, e);
      if exists i :: 0 <= i < |uows| && behave(ChildCall(uows[i], Exit(pending))) == Some(e) {
        var i :| 0 <= i < |uows| && behave(ChildCall(uows[i], Exit(pending))) == Some(e);
        if i < |init| {
          assert init[i] == uows[i];
        }
      }
      if exists i :: 0 <= i < |init| && behave(ChildCall(init[i], Exit(pending))) == Some(e) {
        var i :| 0 <= i < |init| && behave(ChildCall(init[i], Exit(pending))) == Some(e);
        assert uows[i] == init[i];
      }
    }
  }

  // -----------------------------------------------------------------------
  // The aggregate

  class AggregatedUnitOfWork {
    const uows: seq<nat>

    constructor (uows: seq<nat>)
      ensures this.uows == uows
    {
      this.uows := uows;
    }

    /** The loop of `commit`, `rollback`, `close` and `__enter__`: call
        `op` on each child in order, with no `try`. */
    method FanOut(op: Op, behave: ChildCall -> Option<Exc>) returns (calls: seq<ChildCall>, raised: Option<Exc>)
      ensures calls == Attempted(uows, op, behave) && raised == Raised(uows, op, behave)
    {
      calls, raised := [], None;
      var i := 0;
      while i < |uows|
        invariant i <= |uows|
        invariant calls == CallsOf(uows[..i], op)
        invariant forall j :: 0 <= j < i ==> behave(ChildCall(uows[j], op)).None?
      {
        calls := calls + [ChildCall(uows[i], op)];
        assert calls == CallsOf(uows[..i + 1], op);
        var r := behave(ChildCall(uows[i], op));
        if r.Some? {
          FirstRaiseIs(uows, op, behave, i);
          return calls, r;
        }
        i := i + 1;
      }
      FirstRaiseIs(uows, op, behave, i);
    }

    /** Lines 14-16. */
    method Commit(behave: ChildCall -> Option<Exc>) returns (calls: seq<ChildCall>, raised: Option<Exc>)
      ensures calls == Attempted(uows, Op.Commit, behave) && raised == Raised(uows, Op.Commit, behave)
    {
      calls, raised := FanOut(Op.Commit, behave);
    }

    /** Lines 18-20. */
    method Rollback(behave: ChildCall -> Option<Exc>) returns (calls: seq<ChildCall>, raised: Option<Exc>)
      ensures calls == Attempted(uows, Op.Rollback, behave) && raised == Raised(uows, Op.Rollback, behave)
    {
      calls, raised := FanOut(Op.Rollback, behave);
    }

    /** Lines 22-24. */
    method Close(behave: ChildCall -> Option<Exc>) returns (calls: seq<ChildCall>, raised: Option<Exc>)
      ensures calls == Attempted(uows, Op.Close, behave) && raised == Raised(uows, Op.Close, behave)
    {
      calls, raised := FanOut(Op.Close, behave);
    }

    /** Lines 26-29: enter every child, then return the aggregate itself. */
    method Enter(behave: ChildCall -> Option<Exc>) returns (calls: seq<ChildCall>, r: Result<AggregatedUnitOfWork, Exc>)
      ensures calls == Attempted(uows, Op.Enter, behave)
      ensures r == match Raised(uows, Op.Enter, behave)
                   case None => Ok(this)
                   case Some(e) => Err(e)
    {
      var raised;
      calls, raised := FanOut(Op.Enter, behave);
      r := if raised.Some? then Err(raised.value) else Ok(this);
    }

    /** Lines 31-48: exit every child in order, whatever they raise; log a
        child exception other than the one in flight and drop it; then
        re-raise the exception in flight, if any. */
    method Exit(pending: Option<Exc>, behave: ChildCall -> Option<Exc>)
      returns (calls: seq<ChildCall>, logged: seq<Exc>, raised: Option<Exc>)
      ensures calls == CallsOf(uows, Op.Exit(pending))
      ensures logged == Logged(uows, pending, behave)
      ensures raised == pending
    {
      calls, logged := [], [];
      var i := 0;
      while i < |uows|
        invariant i <= |uows|
        invariant calls == CallsOf(uows[..i], Op.Exit(pending))
        invariant logged == Logged(uows[..i], pending, behave)
      {
        var call := ChildCall(uows[i], Op.Exit(pending));
        calls := calls + [call];
        assert calls == CallsOf(uows[..i + 1], Op.Exit(pending));
        var e := behave(call);
        if e.Some? {
          if e == pending {
            // the child re-raised the original: skip it
          } else {
            logged := logged + [e.value];
          }
        }
        assert uows[..i + 1][..i] == uows[..i];
        i := i + 1;
      }
      assert uows[..i] == uows;
      raised := pending;
    }
  }

  // -----------------------------------------------------------------------
  // The factory

  /** The position of the first factory that raises, or the number of
      factories when none does. */
  function FirstFailed(factories: seq<nat>, make: nat -> Result<nat, Exc>): (k: nat)
    ensures k <= |factories|
    ensures forall i :: 0 <= i < k ==> make(factories[i]).Ok?
    ensures k < |factories| ==> make(factories[k]).Err?
    decreases |factories|
  {
    if factories == [] then 0
    else if make(factories[0]).Err? then 0
    else 1 + FirstFailed(factories[1..], make)
  }

  lemma {:induction false} FirstFailedIs(factories: seq<nat>, make: nat -> Result<nat, Exc>, k: nat)
    requires k <= |factories|
    requires forall i :: 0 <= i < k ==> make(factories[i]).Ok?
    requires k < |factories| ==> make(factories[k]).Err?
    ensures FirstFailed(factories, make) == k
    decreases k
  {
    if k > 0 {
      FirstFailedIs(factories[1..], make, k - 1);
    }
  }

  class AggregatedUnitOfWorkFactory {
    const factories: seq<nat>

    constructor (factories: seq<nat>)
      ensures this.factories == factories
    {
      this.factories := factories;
    }

    /** Lines 55-56: one child per factory, in factory order, wrapped in an
        aggregate; a factory that raises stops the list and the exception
        propagates. */
    method Call(make: nat -> Result<nat, Exc>) returns (r: Result<AggregatedUnitOfWork, Exc>)
      ensures var k := FirstFailed(factories, make);
              && (k == |factories| ==>
                    && r.Ok? && |r.value.uows| == |factories|
                    && forall i :: 0 <= i < |factories| ==> r.value.uows[i] == make(factories[i]).value)
              && (k < |factories| ==> r == Err(make(factories[k]).error))
    {
      var children := [];
      var i := 0;
      while i < |factories|
        invariant i <= |factories|
        invariant forall j :: 0 <= j < i ==> make(factories[j]).Ok?
        invariant |children| == i && forall j :: 0 <= j < i ==> children[j] == make(factories[j]).value
      {
        var m := make(factories[i]);
        if m.Err? {
          FirstFailedIs(factories, make, i);
          return Err(m.error);
        }
        children := children + [m.value];
        i := i + 1;
      }
      FirstFailedIs(factories, make, i);
      var u := new AggregatedUnitOfWork(children);
      r := Ok(u);
    }
  }
}
