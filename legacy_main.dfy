/** The older JavaScript mocker: topics bound to lists of subscription names
    by one configuration call, and subscriptions that hand every message to
    all of their callbacks at once. Callbacks are identified by number; a
    call `callback(message)` is recorded as an `Invocation`. */
module LegacyMain {
  import opened Wrappers
  import opened JsValues
  import opened Utils

  type CallbackId = nat

  /** `createMessage(data, attributes)`: `ack_id` is a fresh `Math.random()`
      draw; `owner` is the subscription whose `processMessage` the message's
      `nack` calls. `data` and `attributes` are kept as given. */
  datatype LegacyMessage = LegacyMessage(ackId: Unit, data: JsValue, attributes: JsValue, owner: LegacySubscription)

  datatype Invocation = Invocation(callback: CallbackId, message: LegacyMessage)

  /** `callbacks.forEach((callback) => callback(message))`. */
  function Broadcast(callbacks: seq<CallbackId>, message: LegacyMessage): seq<Invocation>
    decreases |callbacks|
  {
    if callbacks == [] then []
    else Broadcast(callbacks[..|callbacks| - 1], message) + [Invocation(callbacks[|callbacks| - 1], message)]
  }

  /** A broadcast calls every callback exactly once, in registration order. */
  lemma {:induction false} BroadcastCallsEach(callbacks: seq<CallbackId>, message: LegacyMessage)
    ensures |Broadcast(callbacks, message)| == |callbacks|
    ensures forall k :: 0 <= k < |callbacks| ==> Broadcast(callbacks, message)[k] == Invocation(callbacks[k], message)
    decreases |callbacks|
  {
    if callbacks != [] {
      var init := callbacks[..|callbacks| - 1];
      BroadcastCallsEach(init, message);
      forall k | 0 <= k < |init| ensures callbacks[k] == init[k] { }
    }
  }

  /** `pendingMessages.forEach((message) => callback(message))`. */
  function Flush(callback: CallbackId, messages: seq<LegacyMessage>): seq<Invocation>
    decreases |messages|
  {
    if messages == [] then []
    else Flush(callback, messages[..|messages| - 1]) + [Invocation(callback, messages[|messages| - 1])]
  }

  /** Flushing calls the new callback once per pending message, in FIFO order. */
  lemma {:induction false} FlushCallsInOrder(callback: CallbackId, messages: seq<LegacyMessage>)
    ensures |Flush(callback, messages)| == |messages|
    ensures forall k :: 0 <= k < |messages| ==> Flush(callback, messages)[k] == Invocation(callback, messages[k])
    decreases |messages|
  {
    if messages != [] {
      var init := messages[..|messages| - 1];
      FlushCallsInOrder(callback, init);
      forall k | 0 <= k < |init| ensures messages[k] == init[k] { }
    }
  }

  /** `callbacks.filter((fn) => fn !== callback)`. */
  function RemoveCallback(callbacks: seq<CallbackId>, callback: CallbackId): seq<CallbackId>
    decreases |callbacks|
  {
    if callbacks == [] then []
    else (if callbacks[0] == callback then [] else [callbacks[0]]) + RemoveCallback(callbacks[1..], callback)
  }

  /** Removal drops every occurrence of that callback and keeps every other one. */
  lemma {:induction false} RemoveCallbackMembers(callbacks: seq<CallbackId>, callback: CallbackId, c: CallbackId)
    ensures c in RemoveCallback(callbacks, callback) <==> c in callbacks && c != callback
    decreases |callbacks|
  {
    if callbacks != [] {
      RemoveCallbackMembers(callbacks[1..], callback, c);
      assert callbacks == [callbacks[0]] + callbacks[1..];
    }
  }

  /** Removal keeps the order of the remaining callbacks. */
  lemma {:induction false} RemoveCallbackAppend(a: seq<CallbackId>, b: seq<CallbackId>, callback: CallbackId)
    ensures RemoveCallback(a + b, callback) == RemoveCallback(a, callback) + RemoveCallback(b, callback)
    decreases |a|
  {
    if a == [] {
      assert a + b == b;
    } else {
      assert (a + b)[1..] == a[1..] + b;
      RemoveCallbackAppend(a[1..], b, callback);
    }
  }

  /** Handing the messages `ms`, one `processMessage` at a time, to a
      subscription whose callbacks stay `callbacks`: with no callback they
      are appended to pending; otherwise each is broadcast and appended to
      delivered. */
  predicate Processed(callbacks: seq<CallbackId>,
                      pending0: seq<LegacyMessage>, delivered0: seq<LegacyMessage>, log0: seq<Invocation>,
                      pending: seq<LegacyMessage>, delivered: seq<LegacyMessage>, log: seq<Invocation>,
                      ms: seq<LegacyMessage>)
  {
    if callbacks == [] then pending == pending0 + ms && delivered == delivered0 && log == log0
    else pending == pending0 && delivered == delivered0 + ms && log == log0 + BroadcastAll(callbacks, ms)
  }

  /** One broadcast per message, in order. */
  function BroadcastAll(callbacks: seq<CallbackId>, ms: seq<LegacyMessage>): seq<Invocation>
    decreases |ms|
  {
    if ms == [] then [] else BroadcastAll(callbacks, ms[..|ms| - 1]) + Broadcast(callbacks, ms[|ms| - 1])
  }

  lemma ProcessedNothing(callbacks: seq<CallbackId>, pending: seq<LegacyMessage>, delivered: seq<LegacyMessage>, log: seq<Invocation>)
    ensures Processed(callbacks, pending, delivered, log, pending, delivered, log, [])
  {
    assert pending + [] == pending && delivered + [] == delivered && log + [] == log;
  }

  /** Two rounds of processing compose into one. */
  lemma ProcessedStep(callbacks: seq<CallbackId>,
                      p0: seq<LegacyMessage>, d0: seq<LegacyMessage>, l0: seq<Invocation>,
                      p1: seq<LegacyMessage>, d1: seq<LegacyMessage>, l1: seq<Invocation>,
                      p2: seq<LegacyMessage>, d2: seq<LegacyMessage>, l2: seq<Invocation>,
                      ms: seq<LegacyMessage>, m: LegacyMessage)
    requires Processed(callbacks, p0, d0, l0, p1, d1, l1, ms)
    requires Processed(callbacks, p1, d1, l1, p2, d2, l2, [m])
    ensures Processed(callbacks, p0, d0, l0, p2, d2, l2, ms + [m])
  {
    if callbacks != [] {
      BroadcastAllSnoc(callbacks, [], m);
      BroadcastAllSnoc(callbacks, ms, m);
      assert d0 + ms + [m] == d0 + (ms + [m]);
      assert l0 + BroadcastAll(callbacks, ms) + ([] + Broadcast(callbacks, m))
          == l0 + (BroadcastAll(callbacks, ms) + Broadcast(callbacks, m));
    }
  }

  lemma BroadcastAllSnoc(callbacks: seq<CallbackId>, ms: seq<LegacyMessage>, m: LegacyMessage)
    ensures BroadcastAll(callbacks, ms + [m]) == BroadcastAll(callbacks, ms) + Broadcast(callbacks, m)
  {
    assert (ms + [m])[..|ms|] == ms;
  }

  class LegacySubscription {
    var delivered: seq<LegacyMessage>
    var pending: seq<LegacyMessage>
    var callbacks: seq<CallbackId>
    /** The callback calls made so far, in order. */
    var invocations: seq<Invocation>

    /** With a callback registered, nothing waits in pending. */
    ghost predicate Valid()
      reads this
    {
      callbacks != [] ==> pending == []
    }

    /** `createSubscription()`: everything empty. */
    constructor()
      ensures Valid()
      ensures delivered == [] && pending == [] && callbacks == [] && invocations == []
    {
      delivered := [];
      pending := [];
      callbacks := [];
      invocations := [];
    }

    /** `processMessage(message)`: with callbacks, every one of them is called
        with the message, in order, and it joins delivered; otherwise it joins
        pending. */
    method ProcessMessage(message: LegacyMessage)
      requires Valid()
      modifies this
      ensures Valid() && callbacks == old(callbacks)
      ensures old(callbacks) != [] ==>
                && invocations == old(invocations) + Broadcast(callbacks, message)
                && delivered == old(delivered) + [message] && pending == old(pending)
      ensures old(callbacks) == [] ==>
                && pending == old(pending) + [message]
                && delivered == old(delivered) && invocations == old(invocations)
    {
      if |callbacks| > 0 {
        var i := 0;
        while i < |callbacks|
          invariant 0 <= i <= |callbacks|
          invariant callbacks == old(callbacks) && pending == old(pending) && delivered == old(delivered)
          invariant invocations == old(invocations) + Broadcast(callbacks[..i], message)
        {
          assert callbacks[..i + 1][..i] == callbacks[..i];
          invocations := invocations + [Invocation(callbacks[i], message)];
          i := i + 1;
        }
        assert callbacks[..i] == callbacks;
        delivered := delivered + [message];
      } else {
        pending := pending + [message];
      }
    }

    /** `_add(data, attributes)`: a new message with a fresh random `ack_id`,
        processed at once. */
    method Add(data: JsValue, attributes: JsValue, random: RandomSource)
      requires Valid()
      modifies this, random
      ensures Valid() && callbacks == old(callbacks)
      ensures random.calls == old(random.calls) + 1
      ensures Processed(callbacks, old(pending), old(delivered), old(invocations), pending, delivered, invocations,
                        [LegacyMessage(random.draws(old(random.calls)), data, attributes, this)])
    {
      var ackId := random.Next();
      var message := LegacyMessage(ackId, data, attributes, this);
      ProcessMessage(message);
      assert [message][..0] == [];
    }

    /** `on(eventName, callback)`: ignored unless the event is `'message'`;
        then every pending message is handed to the new callback, in FIFO
        order, and moved to delivered, and the callback is registered last. */
    method On(eventName: string, callback: CallbackId)
      requires Valid()
      modifies this
      ensures Valid()
      ensures eventName != "message" ==> unchanged(this)
      ensures eventName == "message" ==>
                && invocations == old(invocations) + Flush(callback, old(pending))
                && delivered == old(delivered) + old(pending)
                && pending == []
                && callbacks == old(callbacks) + [callback]
    {
      if eventName != "message" {
        return;
      }
      var i := 0;
      while i < |pending|
        invariant 0 <= i <= |pending|
        invariant pending == old(pending) && callbacks == old(callbacks)
        invariant invocations == old(invocations) + Flush(callback, pending[..i])
        invariant delivered == old(delivered) + pending[..i]
      {
        assert pending[..i + 1][..i] == pending[..i];
        assert pending[..i + 1] == pending[..i] + [pending[i]];
        invocations := invocations + [Invocation(callback, pending[i])];
        delivered := delivered + [pending[i]];
        i := i + 1;
      }
      assert pending[..i] == pending;
      pending := [];
      callbacks := callbacks + [callback];
    }

    /** `removeListener(eventName, callback)`: the event name is not looked at. */
    method RemoveListener(eventName: string, callback: CallbackId)
      requires Valid()
      modifies this
      ensures Valid()
      ensures callbacks == RemoveCallback(old(callbacks), callback)
      ensures pending == old(pending) && delivered == old(delivered) && invocations == old(invocations)
    {
      callbacks := RemoveCallback(callbacks, callback);
    }

    /** `removeAllListeners(eventName)`: drops every callback; pending stays. */
    method RemoveAllListeners(eventName: string)
      requires Valid()
      modifies this
      ensures Valid()
      ensures callbacks == []
      ensures pending == old(pending) && delivered == old(delivered) && invocations == old(invocations)
    {
      callbacks := [];
    }
  }

  /** `message.nack()`: the same message goes through its owner's
      `processMessage` again. */
  method Nack(message: LegacyMessage)
    requires message.owner.Valid()
    modifies message.owner
    ensures message.owner.Valid() && message.owner.callbacks == old(message.owner.callbacks)
    ensures Processed(message.owner.callbacks,
                      old(message.owner.pending), old(message.owner.delivered), old(message.owner.invocations),
                      message.owner.pending, message.owner.delivered, message.owner.invocations, [message])
  {
    message.owner.ProcessMessage(message);
    assert [message][..0] == [];
  }

  /** `topics[topic] = subscriptionNames` for each configuration entry, in
      order; a later entry for the same topic wins. */
  function AssignAll(topics: map<string, seq<string>>, config: seq<(string, seq<string>)>): map<string, seq<string>>
    decreases |config|
  {
    if config == [] then topics
    else AssignAll(topics, config[..|config| - 1])[config[|config| - 1].0 := config[|config| - 1].1]
  }

  /** A topic is bound after configuration iff it was before or is listed. */
  lemma {:induction false} AssignAllKeys(topics: map<string, seq<string>>, config: seq<(string, seq<string>)>, t: string)
    ensures t in AssignAll(topics, config) <==> t in topics || exists i :: 0 <= i < |config| && config[i].0 == t
    decreases |config|
  {
    if config != [] {
      var init := config[..|config| - 1];
      AssignAllKeys(topics, init, t);
      if exists i :: 0 <= i < |config| && config[i].0 == t {
        var i :| 0 <= i < |config| && config[i].0 == t;
        if i < |init| { assert init[i] == config[i]; }
      }
      if exists i :: 0 <= i < |init| && init[i].0 == t {
        var i :| 0 <= i < |init| && init[i].0 == t;
        assert config[i] == init[i];
      }
    }
  }

  /** A topic is bound to the name list of its last configuration entry. */
  lemma {:induction false} AssignAllLast(topics: map<string, seq<string>>, config: seq<(string, seq<string>)>, i: nat)
    requires i < |config|
    requires forall j :: i < j < |config| ==> config[j].0 != config[i].0
    ensures config[i].0 in AssignAll(topics, config) && AssignAll(topics, config)[config[i].0] == config[i].1
    decreases |config|
  {
    if i < |config| - 1 {
      var init := config[..|config| - 1];
      forall j | i < j < |init| ensures init[j].0 != init[i].0 { assert init[j] == config[j]; }
      AssignAllLast(topics, init, i);
    }
  }

  /** `n` is one of the subscription names of a configuration. */
  ghost predicate Listed(config: seq<(string, seq<string>)>, n: string) {
    exists i, j :: 0 <= i < |config| && 0 <= j < |config[i].1| && config[i].1[j] == n
  }

  /** The owning subscription of each name of a topic's list. */
  function Owners(names: seq<string>, subscriptions: map<string, LegacySubscription>): seq<LegacySubscription>
    requires forall n :: n in names ==> n in subscriptions
  {
    seq(|names|, (k: int) requires 0 <= k < |names| => subscriptions[names[k]])
  }

  /** The messages one publish creates, one per listed name in list order, the
      k-th drawing its `ack_id` with the k-th call of `Math.random()` from
      `from`. */
  function Publications(owners: seq<LegacySubscription>, data: JsValue, attributes: JsValue,
                        draws: nat -> Unit, from: nat): (ms: seq<LegacyMessage>)
    ensures |ms| == |owners|
    decreases |owners|
  {
    if owners == [] then []
    else Publications(owners[..|owners| - 1], data, attributes, draws, from)
         + [LegacyMessage(draws(from + |owners| - 1), data, attributes, owners[|owners| - 1])]
  }

  /** The k-th publication goes to the k-th owner with the k-th draw. */
  lemma {:induction false} PublicationAt(owners: seq<LegacySubscription>, data: JsValue, attributes: JsValue,
                                         draws: nat -> Unit, from: nat, k: nat)
    requires k < |owners|
    ensures Publications(owners, data, attributes, draws, from)[k] == LegacyMessage(draws(from + k), data, attributes, owners[k])
    decreases |owners|
  {
    if k < |owners| - 1 {
      var init := owners[..|owners| - 1];
      PublicationAt(init, data, attributes, draws, from, k);
      assert init[k] == owners[k];
    }
  }

  /** The messages of `ms` whose owner is `s`, in order. */
  function OwnedBy(ms: seq<LegacyMessage>, s: LegacySubscription): seq<LegacyMessage>
    decreases |ms|
  {
    if ms == [] then []
    else OwnedBy(ms[..|ms| - 1], s) + (if ms[|ms| - 1].owner == s then [ms[|ms| - 1]] else [])
  }

  lemma OwnedBySnoc(ms: seq<LegacyMessage>, m: LegacyMessage, s: LegacySubscription)
    ensures OwnedBy(ms + [m], s) == OwnedBy(ms, s) + (if m.owner == s then [m] else [])
  {
    assert (ms + [m])[..|ms|] == ms;
  }

  /** One subscription's share after `_add` on `owner`: it grows by the new
      message exactly when `s` is that owner. */
  lemma ShareAfterAdd(s: LegacySubscription, owner: LegacySubscription, callbacks: seq<CallbackId>, snapshot: LegacySnapshot,
                      p0: seq<LegacyMessage>, d0: seq<LegacyMessage>, l0: seq<Invocation>,
                      p1: seq<LegacyMessage>, d1: seq<LegacyMessage>, l1: seq<Invocation>,
                      ms: seq<LegacyMessage>, message: LegacyMessage)
    requires message.owner == owner
    requires Processed(callbacks, snapshot.pending, snapshot.delivered, snapshot.log, p0, d0, l0, OwnedBy(ms, s))
    requires s == owner ==> Processed(callbacks, p0, d0, l0, p1, d1, l1, [message])
    requires s != owner ==> p1 == p0 && d1 == d0 && l1 == l0
    ensures Processed(callbacks, snapshot.pending, snapshot.delivered, snapshot.log, p1, d1, l1, OwnedBy(ms + [message], s))
  {
    OwnedBySnoc(ms, message, s);
    if s == owner {
      ProcessedStep(callbacks, snapshot.pending, snapshot.delivered, snapshot.log, p0, d0, l0, p1, d1, l1, OwnedBy(ms, s), message);
    } else {
      assert OwnedBy(ms + [message], s) == OwnedBy(ms, s) + [] == OwnedBy(ms, s);
    }
  }

  /** Extending a prefix by one element. Kept as a lemma so that the loop of
      `AddEach` sees only this instance, not the sequence proof behind it. */
  lemma TakeSnoc<T>(s: seq<T>, k: nat)
    requires k < |s|
    ensures s[..k + 1] == s[..k] + [s[k]]
  {
  }

  /** What a subscription held when a publish began. */
  datatype LegacySnapshot = LegacySnapshot(callbacks: seq<CallbackId>, pending: seq<LegacyMessage>,
                                           delivered: seq<LegacyMessage>, log: seq<Invocation>)

  /** `s` keeps its invariant and its callbacks, and has processed its share
      of `ms` since `before`. */
  ghost predicate ShareOf(s: LegacySubscription, before: map<LegacySubscription, LegacySnapshot>, ms: seq<LegacyMessage>)
    reads s
  {
    && s.Valid() && s in before && s.callbacks == before[s].callbacks
    && Processed(s.callbacks, before[s].pending, before[s].delivered, before[s].log,
                 s.pending, s.delivered, s.invocations, OwnedBy(ms, s))
  }

  /** Every subscription in `targets` has processed its share of `ms`. */
  ghost predicate ProcessedShares(targets: set<LegacySubscription>, before: map<LegacySubscription, LegacySnapshot>,
                                  ms: seq<LegacyMessage>)
    reads targets
  {
    forall s :: s in targets ==> ShareOf(s, before, ms)
  }

  lemma ProcessedSharesStart(targets: set<LegacySubscription>, before: map<LegacySubscription, LegacySnapshot>)
    requires forall s :: s in targets ==>
               s.Valid() && s in before && before[s] == LegacySnapshot(s.callbacks, s.pending, s.delivered, s.invocations)
    ensures ProcessedShares(targets, before, [])
  {
    forall s | s in targets
      ensures Processed(s.callbacks, s.pending, s.delivered, s.invocations, s.pending, s.delivered, s.invocations, [])
    {
      ProcessedNothing(s.callbacks, s.pending, s.delivered, s.invocations);
    }
  }

  /** The shares after one more publication. */
  lemma ProcessedSharesSnoc(targets: set<LegacySubscription>, before: map<LegacySubscription, LegacySnapshot>,
                            owners: seq<LegacySubscription>, owner: LegacySubscription, data: JsValue, attributes: JsValue,
                            draws: nat -> Unit, from: nat)
    requires ProcessedShares(targets, before, Publications(owners, data, attributes, draws, from)
                                              + [LegacyMessage(draws(from + |owners|), data, attributes, owner)])
    ensures ProcessedShares(targets, before, Publications(owners + [owner], data, attributes, draws, from))
  {
    assert (owners + [owner])[..|owners|] == owners;
  }

  const TYPE_ERROR: string := "TypeError: Cannot read properties of undefined (reading 'forEach')"

  /** The module-level `topics` and `subscriptions` objects of the mocker. */
  class Mocker {
    var topics: map<string, seq<string>>
    var subscriptions: map<string, LegacySubscription>

    /** Every name a topic is bound to has a subscription, and every
        subscription keeps its invariant. */
    ghost predicate Valid()
      reads this, subscriptions.Values
    {
      && (forall t, n :: t in topics && n in topics[t] ==> n in subscriptions)
      && (forall n :: n in subscriptions ==> subscriptions[n].Valid())
    }

    constructor()
      ensures Valid() && topics == map[] && subscriptions == map[]
    {
      topics := map[];
      subscriptions := map[];
    }

    /** `subscription(subscriptionName)`: `undefined` for an unknown name. */
    function Subscription(subscriptionName: string): Option<LegacySubscription>
      reads this
    {
      if subscriptionName in subscriptions then Some(subscriptions[subscriptionName]) else None
    }

    /** One entry of `initializeMocker`: the topic is bound to the list, and
        every listed name gets a fresh, empty subscription. */
    method Configure(topic: string, subscriptionNames: seq<string>)
      requires Valid()
      modifies this
      ensures Valid()
      ensures topics == old(topics)[topic := subscriptionNames]
      ensures forall n :: n in subscriptions <==> n in old(subscriptions) || n in subscriptionNames
      ensures forall n :: n in old(subscriptions) && n !in subscriptionNames ==> subscriptions[n] == old(subscriptions)[n]
      ensures forall n :: n in subscriptionNames ==>
                && fresh(subscriptions[n])
                && subscriptions[n].callbacks == [] && subscriptions[n].pending == []
                && subscriptions[n].delivered == [] && subscriptions[n].invocations == []
    {
      topics := topics[topic := subscriptionNames];
      var j := 0;
      while j < |subscriptionNames|
        invariant 0 <= j <= |subscriptionNames|
        invariant topics == old(topics)[topic := subscriptionNames]
        invariant forall n :: n in subscriptions <==> n in old(subscriptions) || n in subscriptionNames[..j]
        invariant forall n :: n in old(subscriptions) && n !in subscriptionNames[..j] ==> subscriptions[n] == old(subscriptions)[n]
        invariant forall n :: n in subscriptionNames[..j] ==>
                    && fresh(subscriptions[n])
                    && subscriptions[n].callbacks == [] && subscriptions[n].pending == []
                    && subscriptions[n].delivered == [] && subscriptions[n].invocations == []
        invariant forall n :: n in subscriptions ==> subscriptions[n].Valid()
        invariant forall t, n :: t in old(topics) && n in old(topics)[t] ==> n in old(subscriptions)
      {
        assert subscriptionNames[..j + 1] == subscriptionNames[..j] + [subscriptionNames[j]];
        var subscription := new LegacySubscription();
        subscriptions := subscriptions[subscriptionNames[j] := subscription];
        j := j + 1;
      }
      assert subscriptionNames[..j] == subscriptionNames;
    }

    /** `initializeMocker(config)`, the entries of `config` taken in the order
        `Object.entries` lists them. */
    method InitializeMocker(config: seq<(string, seq<string>)>)
      requires Valid()
      modifies this
      ensures Valid()
      ensures topics == AssignAll(old(topics), config)
      ensures forall n :: n in subscriptions <==> n in old(subscriptions) || Listed(config, n)
      ensures forall n :: n in old(subscriptions) && !Listed(config, n) ==> subscriptions[n] == old(subscriptions)[n]
      ensures forall n :: Listed(config, n) ==>
                && fresh(subscriptions[n])
                && subscriptions[n].callbacks == [] && subscriptions[n].pending == []
                && subscriptions[n].delivered == [] && subscriptions[n].invocations == []
      ensures forall n :: Listed(config, n) ==> Subscription(n) == Some(subscriptions[n])
      ensures forall n :: !Listed(config, n) ==> Subscription(n) == old(Subscription(n))
    {
      var i := 0;
      while i < |config|
        invariant 0 <= i <= |config|
        invariant Valid()
        invariant topics == AssignAll(old(topics), config[..i])
        invariant forall n :: n in subscriptions <==> n in old(subscriptions) || Listed(config[..i], n)
        invariant forall n :: n in old(subscriptions) && !Listed(config[..i], n) ==> subscriptions[n] == old(subscriptions)[n]
        invariant forall n :: Listed(config[..i], n) ==>
                    && fresh(subscriptions[n])
                    && subscriptions[n].callbacks == [] && subscriptions[n].pending == []
                    && subscriptions[n].delivered == [] && subscriptions[n].invocations == []
      {
        ListedSnoc(config[..i], config[i]);
        assert config[..i + 1] == config[..i] + [config[i]];
        assert config[..i + 1][..i] == config[..i];
        Configure(config[i].0, config[i].1);
        i := i + 1;
      }
      assert config[..i] == config;
    }

    /** `topic(topicName).publish(data, attributes)`: a `TypeError` when the
        topic was never configured; otherwise one message per listed name, in
        list order, added to that name's subscription. A name listed twice is
        added to twice. */
    method Publish(topicName: string, data: JsValue, attributes: JsValue, random: RandomSource)
      returns (r: Outcome<string>)
      requires Valid()
      modifies random, subscriptions.Values
      ensures Valid()
      ensures topicName !in topics ==> r == Fail(TYPE_ERROR) && random.calls == old(random.calls)
      ensures topicName !in topics ==> forall n :: n in subscriptions ==> unchanged(subscriptions[n])
      ensures topicName in topics ==>
                && r == Pass
                && random.calls == old(random.calls) + |topics[topicName]|
                && forall n :: n in subscriptions ==>
                     var s := subscriptions[n];
                     && s.callbacks == old(s.callbacks)
                     && Processed(s.callbacks, old(s.pending), old(s.delivered), old(s.invocations),
                                  s.pending, s.delivered, s.invocations,
                                  OwnedBy(Publications(Owners(topics[topicName], subscriptions), data, attributes,
                                                       random.draws, old(random.calls)), s))
    {
      if topicName !in topics {
        return Fail(TYPE_ERROR);
      }
      var names := topics[topicName];
      ghost var targets := subscriptions.Values;
      ghost var owners := Owners(names, subscriptions);
      ghost var before: map<LegacySubscription, LegacySnapshot> :=
        map s: LegacySubscription | s in targets :: LegacySnapshot(s.callbacks, s.pending, s.delivered, s.invocations);
      ProcessedSharesStart(targets, before);
      ghost var ms := AddEach(names, data, attributes, random, targets, before, owners);
      forall n | n in subscriptions
        ensures subscriptions[n].Valid() && subscriptions[n].callbacks == old(subscriptions[n].callbacks)
        ensures Processed(subscriptions[n].callbacks, old(subscriptions[n].pending), old(subscriptions[n].delivered),
                          old(subscriptions[n].invocations), subscriptions[n].pending, subscriptions[n].delivered,
                          subscriptions[n].invocations, OwnedBy(ms, subscriptions[n]))
      {
        var s := subscriptions[n];
        assert s in targets;
        assert ShareOf(s, before, ms);
        assert Processed(s.callbacks, before[s].pending, before[s].delivered, before[s].log,
                         s.pending, s.delivered, s.invocations, OwnedBy(ms, s));
        assert before[s] == old(LegacySnapshot(s.callbacks, s.pending, s.delivered, s.invocations));
      }
      assert ms == Publications(Owners(topics[topicName], subscriptions), data, attributes, random.draws, old(random.calls));
      r := Pass;
    }

    /** The `forEach` of `publish`. */
    method AddEach(names: seq<string>, data: JsValue, attributes: JsValue, random: RandomSource,
                   ghost targets: set<LegacySubscription>, ghost before: map<LegacySubscription, LegacySnapshot>,
                   ghost owners: seq<LegacySubscription>)
      returns (ghost ms: seq<LegacyMessage>)
      requires |owners| == |names|
      requires forall k :: 0 <= k < |names| ==> names[k] in subscriptions && subscriptions[names[k]] == owners[k]
      requires forall k :: 0 <= k < |owners| ==> owners[k] in targets
      requires ProcessedShares(targets, before, [])
      modifies random, targets
      ensures random.calls == old(random.calls) + |names|
      ensures ms == Publications(owners, data, attributes, random.draws, old(random.calls))
      ensures ProcessedShares(targets, before, ms)
    {
      var k := 0;
      while k < |names|
        invariant 0 <= k <= |names|
        invariant random.calls == old(random.calls) + k
        invariant ProcessedShares(targets, before, Publications(owners[..k], data, attributes, random.draws, old(random.calls)))
      {
        var subscription := subscriptions[names[k]];
        assert subscription == owners[k];
        TakeSnoc(owners, k);
        AddOne(subscription, data, attributes, random, targets, before, owners[..k], old(random.calls));
        k := k + 1;
      }
      assert owners[..k] == owners;
      ms := Publications(owners, data, attributes, random.draws, old(random.calls));
    }

    /** One turn of the `forEach`: `_add` on one subscription, every other one
        left as it was. */
    method AddOne(subscription: LegacySubscription, data: JsValue, attributes: JsValue, random: RandomSource,
                  ghost targets: set<LegacySubscription>, ghost before: map<LegacySubscription, LegacySnapshot>,
                  ghost done: seq<LegacySubscription>, ghost from: nat)
      requires subscription in targets
      requires random.calls == from + |done|
      requires ProcessedShares(targets, before, Publications(done, data, attributes, random.draws, from))
      modifies random, targets
      ensures random.calls == old(random.calls) + 1
      ensures ProcessedShares(targets, before, Publications(done + [subscription], data, attributes, random.draws, from))
    {
      ghost var ms := Publications(done, data, attributes, random.draws, from);
      ghost var message := LegacyMessage(random.draws(from + |done|), data, attributes, subscription);
      subscription.Add(data, attributes, random);
      forall s | s in targets
        ensures ShareOf(s, before, ms + [message])
      {
        assert old(ShareOf(s, before, ms));
        ShareAfterAdd(s, subscription, s.callbacks, before[s], old(s.pending), old(s.delivered), old(s.invocations),
                      s.pending, s.delivered, s.invocations, ms, message);
      }
      ProcessedSharesSnoc(targets, before, done, subscription, data, attributes, random.draws, from);
    }
  }

  lemma ListedSnoc(config: seq<(string, seq<string>)>, entry: (string, seq<string>))
    ensures forall n :: Listed(config + [entry], n) <==> Listed(config, n) || n in entry.1
  {
    var c := config + [entry];
    forall n ensures Listed(c, n) <==> Listed(config, n) || n in entry.1 {
      if Listed(c, n) {
        var i, j :| 0 <= i < |c| && 0 <= j < |c[i].1| && c[i].1[j] == n;
        if i < |config| { assert config[i] == c[i]; }
      }
      if Listed(config, n) {
        var i, j :| 0 <= i < |config| && 0 <= j < |config[i].1| && config[i].1[j] == n;
        assert c[i] == config[i];
      }
      if n in entry.1 {
        var j :| 0 <= j < |entry.1| && entry.1[j] == n;
        assert c[|config|] == entry;
      }
    }
  }
}
