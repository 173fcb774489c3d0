/** FlowDispenser: one source channel drained by a single job into every
    requested flow. The coroutines become explicit steps: the producer sends
    into or closes the source, the job resumes once per received value, and a
    flow's awaitClose handler removes its callback. A callback is named by the
    id its flow was given when it was requested; what the callbacks were called
    with is kept as two logs, one per listener of FlowCallback. */
module Dispenser {
  import opened Wrappers
  import opened Collections

  /** The Throwable a flow is closed with. */
  datatype Cause = Cancellation | Failure(reason: string)

  /** The source channel: open, or closed normally (None) or with a cause. */
  datatype SourceState = Open | Closed(cause: Option<Cause>)

  /** The draining job: not launched yet, active, or completed (finished or cancelled). */
  datatype JobState = NoJob | Active | Done

  /** One onNextValue call: the callback of flow `flow` was offered `value`. */
  datatype Delivery<T> = Delivery(flow: nat, value: T)

  /** One close of a requested flow: without a cause when requestFlow found the
      source already closed for receive, with the caught Throwable when the job
      ended by an exception or a cancellation. */
  datatype Closing = Closing(flow: nat, cause: Option<Cause>)

  /** The values offered to one flow, in order. */
  function Received<T>(ds: seq<Delivery<T>>, id: nat): seq<T> {
    if |ds| == 0 then []
    else Received(ds[..|ds| - 1], id) + (if ds[|ds| - 1].flow == id then [ds[|ds| - 1].value] else [])
  }

  /** `flows.forEach { it.onNextValue(value) }`: one call per callback, in registration order. */
  function Round<T>(flows: seq<nat>, value: T): (r: seq<Delivery<T>>)
    ensures |r| == |flows|
    ensures forall k :: 0 <= k < |flows| ==> r[k] == Delivery(flows[k], value)
  {
    if |flows| == 0 then [] else Round(flows[..|flows| - 1], value) + [Delivery(flows[|flows| - 1], value)]
  }

  /** `flows.forEach { it.onClose(t) }`: one close per callback, in registration order. */
  function CloseEach(flows: seq<nat>, cause: Cause): (r: seq<Closing>)
    ensures |r| == |flows|
    ensures forall k :: 0 <= k < |flows| ==> r[k] == Closing(flows[k], Some(cause))
  {
    seq(|flows|, k requires 0 <= k < |flows| => Closing(flows[k], Some(cause)))
  }

  /** What a flow receives over two stretches of deliveries is what it receives
      over each, in order. */
  lemma {:induction false} ReceivedAppend<T>(a: seq<Delivery<T>>, b: seq<Delivery<T>>, id: nat)
    ensures Received(a + b, id) == Received(a, id) + Received(b, id)
    decreases |b|
  {
    if |b| > 0 {
      var b' := b[..|b| - 1];
      assert (a + b)[..|a + b| - 1] == a + b';
      ReceivedAppend(a, b', id);
      assert (a + b)[|a + b| - 1] == b[|b| - 1];
    } else {
      assert a + b == a;
    }
  }

  /** One round offers the value exactly once to every registered flow and to no other. */
  lemma {:induction false} RoundReceived<T>(flows: seq<nat>, value: T, id: nat)
    requires Distinct(flows)
    ensures Received(Round(flows, value), id) == if id in flows then [value] else []
    decreases |flows|
  {
    if |flows| > 0 {
      var init := flows[..|flows| - 1];
      assert Distinct(init);
      RoundReceived(init, value, id);
      var r := Round(flows, value);
      assert r[..|r| - 1] == Round(init, value);
      assert id in flows <==> id in init || id == flows[|flows| - 1];
      assert id == flows[|flows| - 1] ==> id !in init;
    }
  }

  /** A flow that no delivery names has received nothing: there is no replay of
      values drained before it was requested. */
  lemma {:induction false} NoReplay<T>(ds: seq<Delivery<T>>, id: nat)
    requires forall k :: 0 <= k < |ds| ==> ds[k].flow < id
    ensures Received(ds, id) == []
    decreases |ds|
  {
    if |ds| > 0 {
      NoReplay(ds[..|ds| - 1], id);
    }
  }

  /** The exception handler closes exactly the callbacks registered when it ran. */
  lemma CloseEachCloses(flows: seq<nat>, cause: Cause, id: nat)
    ensures Closing(id, Some(cause)) in CloseEach(flows, cause) <==> id in flows
    ensures forall c :: c in CloseEach(flows, cause) ==> c.cause == Some(cause)
  {
    if id in flows {
      var k :| 0 <= k < |flows| && flows[k] == id;
      assert CloseEach(flows, cause)[k] == Closing(id, Some(cause));
    }
  }

  class FlowDispenser<T> {
    /** The values waiting in the source channel, oldest first. */
    var pending: seq<T>
    var source: SourceState
    /** `flows`: the registered callbacks, in registration order. */
    var flows: seq<nat>
    var job: JobState
    /** Every onNextValue call, in order. */
    var deliveries: seq<Delivery<T>>
    /** Every close of a requested flow, in order. */
    var closings: seq<Closing>
    /** The id the next requested flow gets. */
    var nextId: nat

    /** Every callback was registered once, and no delivery names a flow not yet requested. */
    predicate Valid()
      reads this
    {
      && Distinct(flows)
      && (forall x: int :: x in flows ==> x < nextId)
      && (forall k :: 0 <= k < |deliveries| ==> deliveries[k].flow < nextId)
    }

    constructor ()
      ensures Valid()
      ensures pending == [] && source == Open && flows == [] && job == NoJob
      ensures deliveries == [] && closings == [] && nextId == 0
    {
      pending := [];
      source := Open;
      flows := [];
      job := NoJob;
      deliveries := [];
      closings := [];
      nextId := 0;
    }

    /** `running`: the job exists and is active. */
    predicate Running()
      reads this
    {
      job == Active
    }

    /** The producer sends a value into the open source channel (sending into a
        closed channel throws in the producer, not here). */
    method Send(value: T)
      requires source.Open?
      modifies this
      ensures pending == old(pending) + [value]
      ensures source == old(source) && flows == old(flows) && job == old(job)
      ensures deliveries == old(deliveries) && closings == old(closings) && nextId == old(nextId)
    {
      pending := pending + [value];
    }

    /** The producer closes the source, normally or with a cause; closing it again does nothing. */
    method CloseSource(cause: Option<Cause>)
      modifies this
      ensures old(source).Open? ==> source == Closed(cause)
      ensures old(source).Closed? ==> source == old(source)
      ensures pending == old(pending) && flows == old(flows) && job == old(job)
      ensures deliveries == old(deliveries) && closings == old(closings) && nextId == old(nextId)
    {
      if source.Open? {
        source := Closed(cause);
      }
    }

    /** initialize: launch the draining job unless it is already running. */
    method Initialize()
      modifies this
      ensures old(Running()) ==> unchanged(this)
      ensures Running()
      ensures pending == old(pending) && source == old(source) && flows == old(flows)
      ensures deliveries == old(deliveries) && closings == old(closings) && nextId == old(nextId)
    {
      if Running() {
        return;
      }
      job := Active;
    }

    /** The catch block: every callback registered now is closed with the Throwable. */
    method CloseAll(cause: Cause)
      modifies this
      ensures closings == old(closings) + CloseEach(flows, cause)
      ensures pending == old(pending) && source == old(source) && flows == old(flows) && job == old(job)
      ensures deliveries == old(deliveries) && nextId == old(nextId)
    {
      var i := 0;
      while i < |flows|
        invariant 0 <= i <= |flows|
        invariant closings == old(closings) + CloseEach(flows[..i], cause)
        invariant pending == old(pending) && source == old(source) && flows == old(flows) && job == old(job)
        invariant deliveries == old(deliveries) && nextId == old(nextId)
      {
        assert CloseEach(flows[..i + 1], cause) == CloseEach(flows[..i], cause) + [Closing(flows[i], Some(cause))];
        closings := closings + [Closing(flows[i], Some(cause))];
        i := i + 1;
      }
      assert flows[..i] == flows;
    }

    /** `flows.forEach { it.onNextValue(value) }` */
    method Offer(value: T)
      modifies this
      ensures deliveries == old(deliveries) + Round(flows, value)
      ensures pending == old(pending) && source == old(source) && flows == old(flows) && job == old(job)
      ensures closings == old(closings) && nextId == old(nextId)
    {
      var i := 0;
      while i < |flows|
        invariant 0 <= i <= |flows|
        invariant deliveries == old(deliveries) + Round(flows[..i], value)
        invariant pending == old(pending) && source == old(source) && flows == old(flows) && job == old(job)
        invariant closings == old(closings) && nextId == old(nextId)
      {
        assert flows[..i + 1][..i] == flows[..i];
        deliveries := deliveries + [Delivery(flows[i], value)];
        i := i + 1;
      }
      assert flows[..i] == flows;
    }

    /** One resumption of the job's `for (value in inChannel)` loop. A received value
        goes to every registered callback, in order; a normal end of the source ends the
        job and closes nothing; a source closed with a cause throws it into the catch
        block, which closes every callback with it. A job that is not active, or that
        waits on an empty open source, does nothing. */
    method Resume()
      requires Valid()
      modifies this
      ensures Valid()
      ensures old(job) != Active || (old(pending) == [] && old(source).Open?) ==> unchanged(this)
      ensures old(job) == Active && old(pending) != [] ==>
                && pending == old(pending)[1..]
                && deliveries == old(deliveries) + Round(old(flows), old(pending)[0])
                && job == Active && closings == old(closings)
      ensures old(job) == Active && old(pending) == [] && old(source) == Closed(None) ==>
                job == Done && pending == [] && deliveries == old(deliveries) && closings == old(closings)
      ensures old(job) == Active && old(pending) == [] && old(source).Closed? && old(source).cause.Some? ==>
                && job == Done && pending == [] && deliveries == old(deliveries)
                && closings == old(closings) + CloseEach(old(flows), old(source).cause.value)
      ensures flows == old(flows) && source == old(source) && nextId == old(nextId)
      ensures forall id :: Received(deliveries, id) ==
                Received(old(deliveries), id) +
                (if old(job) == Active && old(pending) != [] && id in old(flows) then [old(pending)[0]] else [])
    {
      if job != Active {
        return;
      }
      if pending != [] {
        var value := pending[0];
        pending := pending[1..];
        Offer(value);
        forall k | 0 <= k < |flows|
          ensures flows[k] < nextId
        {
          assert flows[k] in flows;
        }
        forall id
          ensures Received(deliveries, id) == Received(old(deliveries), id) + (if id in flows then [value] else [])
        {
          ReceivedAppend(old(deliveries), Round(flows, value), id);
          RoundReceived(flows, value, id);
        }
      } else if source.Closed? {
        match source.cause {
          case None =>
          case Some(cause) => CloseAll(cause);
        }
        job := Done;
      }
    }

    /** stop: cancel the job; the cancellation lands in the same catch block, so every
        registered callback is closed with it. The list itself is left alone. */
    method Stop()
      modifies this
      ensures old(job) == Active ==> job == Done && closings == old(closings) + CloseEach(old(flows), Cancellation)
      ensures old(job) != Active ==> job == old(job) && closings == old(closings)
      ensures !Running()
      ensures pending == old(pending) && source == old(source) && flows == old(flows)
      ensures deliveries == old(deliveries) && nextId == old(nextId)
    {
      if job == Active {
        CloseAll(Cancellation);
        job := Done;
      }
    }

    /** requestFlow: register a new callback at the end of the list; when the source is
        already closed for receive (closed and drained) the new flow is closed at once. */
    method RequestFlow() returns (id: nat)
      requires Valid()
      modifies this
      ensures Valid()
      ensures id == old(nextId) && id !in old(flows) && nextId == id + 1
      ensures flows == old(flows) + [id]
      ensures Received(deliveries, id) == []
      ensures old(source).Closed? && old(pending) == [] ==> closings == old(closings) + [Closing(id, None)]
      ensures !(old(source).Closed? && old(pending) == []) ==> closings == old(closings)
      ensures pending == old(pending) && source == old(source) && job == old(job) && deliveries == old(deliveries)
    {
      forall k | 0 <= k < |flows|
        ensures flows[k] < nextId
      {
        assert flows[k] in flows;
      }
      id := nextId;
      nextId := nextId + 1;
      flows := flows + [id];
      NoReplay(deliveries, id);
      if source.Closed? && pending == [] {
        closings := closings + [Closing(id, None)];
      }
    }

    /** removeCallback, run by a flow's awaitClose handler: that callback leaves the
        list and every other one stays, in order. */
    method RemoveCallback(id: nat)
      requires Valid()
      modifies this
      ensures Valid()
      ensures flows == RemoveFirst(old(flows), id)
      ensures forall x: int :: x in flows <==> x in old(flows) && x != id
      ensures unchanged(this`pending, this`source, this`job, this`deliveries, this`closings, this`nextId)
    {
      RemoveBelow(flows, id, nextId);
      flows := RemoveFirst(flows, id);
    }

    /** clear: forget every callback without closing them or touching the job. */
    method Clear()
      requires Valid()
      modifies this
      ensures Valid()
      ensures flows == []
      ensures pending == old(pending) && source == old(source) && job == old(job)
      ensures deliveries == old(deliveries) && closings == old(closings) && nextId == old(nextId)
    {
      flows := [];
    }
  }

  /** Removing a callback keeps the list free of duplicates and every id below the
      next one handed out. */
  lemma RemoveBelow(flows: seq<nat>, id: nat, nextId: nat)
    requires Distinct(flows) && forall x: int :: x in flows ==> x < nextId
    ensures Distinct(RemoveFirst(flows, id))
    ensures forall x :: x in RemoveFirst(flows, id) <==> x in flows && x != id
    ensures forall x: int :: x in RemoveFirst(flows, id) ==> x < nextId
  {
    RemoveDistinct(flows, id);
  }

  /** A flow requested between two values sees the second and not the first, while
      a flow requested before both sees both, in order. */
  method Subscription(d: FlowDispenser<int>) returns (early: nat, late: nat)
    requires d.Valid() && d.job == NoJob && d.source.Open? && d.pending == []
    modifies d
    ensures Received(d.deliveries, early) == [1, 2]
    ensures Received(d.deliveries, late) == [2]
  {
    early := FirstValue(d);
    late := SecondValue(d, early);
  }

  /** The second half of Subscription: a new flow, then the value 2 through the job. */
  method SecondValue(d: FlowDispenser<int>, early: nat) returns (late: nat)
    requires d.Valid() && d.Running() && d.source.Open? && d.pending == []
    requires early in d.flows && Received(d.deliveries, early) == [1]
    modifies d
    ensures Received(d.deliveries, early) == [1, 2]
    ensures Received(d.deliveries, late) == [2]
  {
    late := d.RequestFlow();
    assert early in d.flows && late in d.flows;
    d.Send(2);
    d.Resume();
    assert Received(d.deliveries, early) == [1] + [2];
  }

  /** The first half of Subscription: a flow, the job, and the value 1 through it. */
  method FirstValue(d: FlowDispenser<int>) returns (early: nat)
    requires d.Valid() && d.job == NoJob && d.source.Open? && d.pending == []
    modifies d
    ensures d.Valid() && d.Running() && d.source.Open? && d.pending == []
    ensures early in d.flows && Received(d.deliveries, early) == [1]
  {
    early := d.RequestFlow();
    d.Initialize();
    d.Send(1);
    d.Resume();
  }
}
