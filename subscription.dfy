/** A subscription of the TypeScript engine: its listener list, its queue of
    messages waiting for a listener, and the drain that hands every queued
    message to one listener picked at random. Listeners are identified by
    number; calling one is recorded as a `Delivery` in `deliveries`. */
module Subscriptions {
  import opened Wrappers
  import opened Utf8
  import opened JsValues
  import opened JsMaps
  import opened Utils

  type ListenerId = nat

  /** The `Message` value the engine builds (its timestamps are not modelled).
      `subscription` is the owning subscription a negative acknowledgement
      re-enqueues onto. */
  datatype Message = Message(
    ackId: string,
    id: string,
    data: seq<byte>,
    attributes: Attributes,
    length: nat,
    deliveryAttempt: int,
    orderingKey: string,
    isExactlyOnceDelivery: bool,
    subscription: Subscription)

  /** One call `listener(message)`. */
  datatype Delivery = Delivery(listener: ListenerId, message: Message)

  /** The calls `processMessageQueue` makes when there is at least one
      listener: one per queued message, in queue order, each to the listener
      picked with the next draw of `Math.random()`. */
  function DrainLog(listeners: seq<ListenerId>, queue: seq<Message>, draws: nat -> Unit, from: nat): seq<Delivery>
    requires listeners != []
    decreases |queue|
  {
    if queue == [] then []
    else [Delivery(PickRandom(listeners, draws(from)).value, queue[0])] + DrainLog(listeners, queue[1..], draws, from + 1)
  }

  /** `d` hands each message of `ms` to one of `listeners`: exactly once, in
      the same order. */
  predicate DeliversInOrder(d: seq<Delivery>, ms: seq<Message>, listeners: seq<ListenerId>) {
    |d| == |ms| && forall k :: 0 <= k < |d| ==> d[k].message == ms[k] && d[k].listener in listeners
  }

  /** Draining delivers every queued message exactly once, in FIFO order, each
      to a currently registered listener, the k-th one chosen by the k-th draw. */
  lemma {:induction false} DrainDeliversEachOnce(listeners: seq<ListenerId>, queue: seq<Message>, draws: nat -> Unit, from: nat)
    requires listeners != []
    ensures DeliversInOrder(DrainLog(listeners, queue, draws, from), queue, listeners)
    ensures forall k :: 0 <= k < |queue| ==>
              DrainLog(listeners, queue, draws, from)[k].listener == listeners[PickIndex(|listeners|, draws(from + k))]
    decreases |queue|
  {
    if queue != [] {
      DrainDeliversEachOnce(listeners, queue[1..], draws, from + 1);
      var d := DrainLog(listeners, queue, draws, from);
      var rest := DrainLog(listeners, queue[1..], draws, from + 1);
      assert d == [Delivery(PickRandom(listeners, draws(from)).value, queue[0])] + rest;
      forall k | 0 < k < |queue|
        ensures d[k].message == queue[k] && d[k].listener in listeners
        ensures d[k].listener == listeners[PickIndex(|listeners|, draws(from + k))]
      {
        assert d[k] == rest[k - 1];
        assert queue[1..][k - 1] == queue[k];
        assert from + 1 + (k - 1) == from + k;
      }
    }
  }

  /** Draining a queue one message longer adds one call at the end. */
  lemma {:induction false} DrainLogSnoc(listeners: seq<ListenerId>, queue: seq<Message>, m: Message, draws: nat -> Unit, from: nat)
    requires listeners != []
    ensures DrainLog(listeners, queue + [m], draws, from)
            == DrainLog(listeners, queue, draws, from) + [Delivery(PickRandom(listeners, draws(from + |queue|)).value, m)]
    decreases |queue|
  {
    if queue == [] {
      assert [m][1..] == [];
    } else {
      assert (queue + [m])[1..] == queue[1..] + [m];
      DrainLogSnoc(listeners, queue[1..], m, draws, from + 1);
    }
  }

  /** The state change of handing the messages `ms`, one `_queueMessage` at a
      time, to a subscription whose listener list stays `listeners`: with no
      listener they are appended to the queue and nobody is called; otherwise
      the queue was and stays empty, and the calls made deliver `ms` in order. */
  predicate Received(listeners: seq<ListenerId>, queue0: seq<Message>, log0: seq<Delivery>,
                     queue: seq<Message>, log: seq<Delivery>, ms: seq<Message>)
  {
    if listeners == [] then queue == queue0 + ms && log == log0
    else
      && queue0 == [] && queue == []
      && |log0| <= |log| && log[..|log0|] == log0
      && DeliversInOrder(log[|log0|..], ms, listeners)
  }

  /** Two rounds of delivery compose into one. */
  lemma ReceivedStep(listeners: seq<ListenerId>, q0: seq<Message>, l0: seq<Delivery>,
                     q1: seq<Message>, l1: seq<Delivery>, q2: seq<Message>, l2: seq<Delivery>,
                     ms: seq<Message>, m: Message)
    requires Received(listeners, q0, l0, q1, l1, ms)
    requires Received(listeners, q1, l1, q2, l2, [m])
    ensures Received(listeners, q0, l0, q2, l2, ms + [m])
  {
    if listeners != [] {
      assert l2[..|l0|] == l1[..|l0|];
      var d := l2[|l0|..];
      assert |d| == |ms| + 1;
      forall k | 0 <= k < |d| ensures d[k].message == (ms + [m])[k] && d[k].listener in listeners {
        if k < |ms| {
          assert d[k] == l1[|l0|..][k];
        } else {
          assert d[k] == l2[|l1|..][0];
        }
      }
    }
  }

  lemma ReceivedNothing(listeners: seq<ListenerId>, queue: seq<Message>, log: seq<Delivery>)
    requires listeners != [] ==> queue == []
    ensures Received(listeners, queue, log, queue, log, [])
  {
    assert queue + [] == queue;
  }

  class Subscription {
    const projectId: string
    const name: string
    /** The registry this subscription deletes itself from. */
    const subscriptions: JsMap<Subscription>
    var listeners: seq<ListenerId>
    var messageQueue: seq<Message>
    var deliveries: seq<Delivery>

    /** Queued messages never wait while a listener exists. */
    ghost predicate Valid()
      reads this
    {
      listeners != [] ==> messageQueue == []
    }

    /** `createSubscription`: the subscription is put in the registry under
        `name` only when `registerSubscription` holds. */
    constructor(projectId: string, name: string, subscriptions: JsMap<Subscription>, registerSubscription: bool)
      requires subscriptions.Valid()
      modifies if registerSubscription then {subscriptions} else {}
      ensures Valid() && listeners == [] && messageQueue == [] && deliveries == []
      ensures this.projectId == projectId && this.name == name && this.subscriptions == subscriptions
      ensures subscriptions.Valid()
      ensures subscriptions.entries == if registerSubscription then Put(old(subscriptions.entries), name, this)
                                       else old(subscriptions.entries)
    {
      this.projectId := projectId;
      this.name := name;
      this.subscriptions := subscriptions;
      listeners := [];
      messageQueue := [];
      deliveries := [];
      new;
      if registerSubscription {
        subscriptions.Set(name, this);
      }
    }

    /** `processMessageQueue`: nothing without a listener; otherwise every
        queued message goes to a listener picked at random and the queue is
        emptied. */
    method ProcessMessageQueue(random: RandomSource)
      modifies this, random
      ensures listeners == old(listeners)
      ensures old(listeners) == [] ==>
                messageQueue == old(messageQueue) && deliveries == old(deliveries) && unchanged(random)
      ensures old(listeners) != [] ==>
                && messageQueue == []
                && deliveries == old(deliveries) + DrainLog(listeners, old(messageQueue), random.draws, old(random.calls))
                && random.calls == old(random.calls) + |old(messageQueue)|
    {
      if listeners == [] {
        return;
      }
      var i := 0;
      while i < |messageQueue|
        invariant 0 <= i <= |messageQueue|
        invariant listeners == old(listeners) && messageQueue == old(messageQueue)
        invariant random.calls == old(random.calls) + i
        invariant deliveries == old(deliveries) + DrainLog(listeners, messageQueue[..i], random.draws, old(random.calls))
      {
        var draw := random.Next();
        var listener := PickRandom(listeners, draw);
        DrainLogSnoc(listeners, messageQueue[..i], messageQueue[i], random.draws, old(random.calls));
        assert messageQueue[..i + 1] == messageQueue[..i] + [messageQueue[i]];
        deliveries := deliveries + [Delivery(listener.value, messageQueue[i])];
        i := i + 1;
      }
      assert messageQueue[..i] == messageQueue;
      messageQueue := [];
    }

    /** `on(eventName, listener)`: only `'message'` registers; the new
        listener goes last and the queue is drained at once. */
    method On(eventName: string, listener: ListenerId, random: RandomSource)
      requires Valid()
      modifies this, random
      ensures Valid()
      ensures eventName != "message" ==> unchanged(this) && unchanged(random)
      ensures eventName == "message" ==>
                && listeners == old(listeners) + [listener]
                && messageQueue == []
                && deliveries == old(deliveries) + DrainLog(listeners, old(messageQueue), random.draws, old(random.calls))
                && random.calls == old(random.calls) + |old(messageQueue)|
    {
      if eventName != "message" {
        return;
      }
      listeners := listeners + [listener];
      ProcessMessageQueue(random);
    }

    /** `removeAllListeners()`: whatever is queued stays queued. */
    method RemoveAllListeners()
      modifies this
      ensures Valid()
      ensures listeners == [] && messageQueue == old(messageQueue) && deliveries == old(deliveries)
    {
      listeners := [];
    }

    /** `_queueMessage(message)`: enqueue, then drain. */
    method QueueMessage(message: Message, random: RandomSource)
      requires Valid()
      modifies this, random
      ensures Valid() && listeners == old(listeners)
      ensures Received(listeners, old(messageQueue), old(deliveries), messageQueue, deliveries, [message])
      ensures old(listeners) == [] ==> unchanged(random)
      ensures old(listeners) != [] ==>
                && deliveries == old(deliveries) + [Delivery(PickRandom(listeners, random.draws(old(random.calls))).value, message)]
                && random.calls == old(random.calls) + 1
    {
      messageQueue := messageQueue + [message];
      ProcessMessageQueue(random);
      if listeners != [] {
        assert old(messageQueue) == [];
        assert [message][1..] == [];
        DrainDeliversEachOnce(listeners, [message], random.draws, old(random.calls));
        assert deliveries[|old(deliveries)|..] == DrainLog(listeners, [message], random.draws, old(random.calls));
      }
    }

    /** `delete()`: the name is canonicalised again (code 3 if that fails),
        then removed from the registry, or code 5 if it is not there. */
    method Delete() returns (r: Outcome<LibError>)
      requires subscriptions.Valid()
      modifies subscriptions
      ensures subscriptions.Valid()
      ensures MakeSubscriptionName(projectId, name).Err? ==>
                r == Fail(MakeSubscriptionName(projectId, name).error)
                && subscriptions.entries == old(subscriptions.entries)
      ensures MakeSubscriptionName(projectId, name).Ok? ==>
                var n := MakeSubscriptionName(projectId, name).value;
                if HasKey(old(subscriptions.entries), n) then
                  r == Pass && subscriptions.entries == Without(old(subscriptions.entries), n)
                else
                  r == Fail(MakeLibError(NOT_FOUND, "NOT_FOUND: Subscription does not exist"))
                  && subscriptions.entries == old(subscriptions.entries)
    {
      var canonical := MakeSubscriptionName(projectId, name);
      if canonical.Err? {
        return Fail(canonical.error);
      }
      if !subscriptions.Has(canonical.value) {
        return Fail(MakeLibError(NOT_FOUND, "NOT_FOUND: Subscription does not exist"));
      }
      var _ := subscriptions.Delete(canonical.value);
      r := Pass;
    }
  }

  /** The subscription objects a registry holds. */
  function Registered(subscriptions: JsMap<Subscription>): set<Subscription>
    reads subscriptions
  {
    ValueSet(subscriptions.entries)
  }

  /** The registry's keys are unique and every registered subscription keeps
      its invariant. */
  ghost predicate AllValid(subscriptions: JsMap<Subscription>)
    reads subscriptions, Registered(subscriptions)
  {
    subscriptions.Valid() && forall s :: s in Registered(subscriptions) ==> s.Valid()
  }

  /** `getSubscription`: the registered subscription under the canonical name,
      or a fresh unregistered one; the registry is not touched. */
  method GetSubscription(projectId: string, subscriptionName: string, subscriptions: JsMap<Subscription>)
    returns (r: Result<Subscription, LibError>)
    requires subscriptions.Valid()
    ensures MakeSubscriptionName(projectId, subscriptionName).Err? ==>
              r == Err(MakeSubscriptionName(projectId, subscriptionName).error)
    ensures MakeSubscriptionName(projectId, subscriptionName).Ok? ==>
              var n := MakeSubscriptionName(projectId, subscriptionName).value;
              && r.Ok?
              && (HasKey(subscriptions.entries, n) ==> Find(subscriptions.entries, n) == Some(r.value))
              && (!HasKey(subscriptions.entries, n) ==>
                    && fresh(r.value) && r.value.Valid()
                    && r.value.name == n && r.value.projectId == projectId && r.value.subscriptions == subscriptions
                    && r.value.listeners == [] && r.value.messageQueue == [] && r.value.deliveries == [])
  {
    var canonical := MakeSubscriptionName(projectId, subscriptionName);
    if canonical.Err? {
      return Err(canonical.error);
    }
    var found := subscriptions.Get(canonical.value);
    if found.Some? {
      return Ok(found.value);
    }
    var placeholder := new Subscription(projectId, canonical.value, subscriptions, false);
    r := Ok(placeholder);
  }
}
