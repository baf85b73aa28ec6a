/** A topic of the TypeScript engine: the names of the subscriptions created
    through it, and the publish operations that fan one message out to every
    one of them still registered. The registries are the injected `topics`
    and `subscriptions` maps. */
module Topics {
  import opened Wrappers
  import opened Decimal
  import opened Utf8
  import opened JsValues
  import opened JsMaps
  import opened Utils
  import opened Subscriptions
  import opened Messages

  /** `typeof attributes === 'function' ? undefined : attributes`. */
  function PublishAttributes(attributes: Attributes): Attributes
  {
    if attributes.FunctionAttributes? then UndefinedAttributes else attributes
  }

  /** `messageOptions.json ? JSON.stringify(messageOptions.json) : messageOptions.data`. */
  function PublishMessageData(json: JsonOption, data: DataInput): DataInput {
    match json
    case FalsyJson => data
    case TruthyJson(Some(text)) => TextData(text)
    case TruthyJson(None) => OtherData
  }

  /** `messageOptions.attributes ?? undefined`. */
  function PublishMessageAttributes(attributes: Attributes): Attributes
  {
    if attributes.NullAttributes? then UndefinedAttributes else attributes
  }

  /** The copies one publish builds: one per target, in order, all with the
      same id, the k-th drawing counter value `first + k`. */
  function Copies(targets: seq<Subscription>, id: string, dataInput: DataInput, attributes: Attributes, first: nat): (ms: seq<Message>)
    ensures |ms| == |targets|
    decreases |targets|
  {
    if targets == [] then []
    else [BuildMessage(id, targets[0], dataInput, attributes, first)] + Copies(targets[1..], id, dataInput, attributes, first + 1)
  }

  /** The k-th copy is the message built for the k-th target from counter
      value `first + k`. */
  lemma {:induction false} CopiesAt(targets: seq<Subscription>, id: string, dataInput: DataInput, attributes: Attributes, first: nat, k: nat)
    requires k < |targets|
    ensures Copies(targets, id, dataInput, attributes, first)[k] == BuildMessage(id, targets[k], dataInput, attributes, first + k)
    decreases k
  {
    if k > 0 {
      CopiesAt(targets[1..], id, dataInput, attributes, first + 1, k - 1);
    }
  }

  /** Every copy of one publish carries the shared id and the same payload;
      no two copies share an ack id. */
  lemma CopiesShareIdNotAckId(targets: seq<Subscription>, id: string, dataInput: DataInput, attributes: Attributes, first: nat)
    ensures var ms := Copies(targets, id, dataInput, attributes, first);
      && (forall k :: 0 <= k < |ms| ==> ms[k].id == id && ms[k].subscription == targets[k] && ms[k].data == NormalizePayload(dataInput))
      && (forall j, k :: 0 <= j < k < |ms| ==> ms[j].ackId != ms[k].ackId)
  {
    var ms := Copies(targets, id, dataInput, attributes, first);
    forall k | 0 <= k < |ms| ensures ms[k].id == id && ms[k].subscription == targets[k] && ms[k].data == NormalizePayload(dataInput) {
      CopiesAt(targets, id, dataInput, attributes, first, k);
    }
    forall j, k | 0 <= j < k < |ms| ensures ms[j].ackId != ms[k].ackId {
      CopiesAt(targets, id, dataInput, attributes, first, j);
      CopiesAt(targets, id, dataInput, attributes, first, k);
      if ms[j].ackId == ms[k].ackId {
        AckIdInjective(targets[j].name, first + j, targets[k].name, first + k);
      }
    }
  }

  /** What a subscriber of `publish(data, attributes)` sees on every copy: the
      payload of `data`, and attributes that are `{}` when none or a callback
      was passed. */
  lemma PublishedCopies(targets: seq<Subscription>, id: string, data: DataInput, attributes: Attributes, first: nat)
    ensures var ms := Copies(targets, id, data, PublishAttributes(attributes), first);
      forall k :: 0 <= k < |ms| ==>
        && ms[k].data == NormalizePayload(data)
        && ms[k].attributes == (if attributes.UndefinedAttributes? || attributes.FunctionAttributes? then AttributeMap(map[])
                                else attributes)
  {
    var ms := Copies(targets, id, data, PublishAttributes(attributes), first);
    forall k | 0 <= k < |ms|
      ensures ms[k].data == NormalizePayload(data)
      ensures ms[k].attributes == (if attributes.UndefinedAttributes? || attributes.FunctionAttributes? then AttributeMap(map[])
                                   else attributes)
    {
      CopiesAt(targets, id, data, PublishAttributes(attributes), first, k);
    }
  }

  /** What a subscriber of `publishMessage({data, json, attributes})` sees on
      every copy: the serialised `json` when it is truthy (decoding back to
      that text, or empty when serialising gives `undefined`), `data`'s
      payload otherwise, and attributes that are `{}` when missing or `null`. */
  lemma PublishedMessageCopies(targets: seq<Subscription>, id: string, data: DataInput, json: JsonOption,
                               attributes: Attributes, first: nat)
    ensures var ms := Copies(targets, id, PublishMessageData(json, data), PublishMessageAttributes(attributes), first);
      forall k :: 0 <= k < |ms| ==>
        && (json.FalsyJson? ==> ms[k].data == NormalizePayload(data))
        && (json.TruthyJson? && json.serialized.Some? ==> Decode(ms[k].data) == Some(json.serialized.value))
        && (json.TruthyJson? && json.serialized.None? ==> ms[k].data == [])
        && ms[k].attributes == (if attributes.UndefinedAttributes? || attributes.NullAttributes? then AttributeMap(map[])
                                else attributes)
  {
    var input := PublishMessageData(json, data);
    var ms := Copies(targets, id, input, PublishMessageAttributes(attributes), first);
    forall k | 0 <= k < |ms|
      ensures json.FalsyJson? ==> ms[k].data == NormalizePayload(data)
      ensures json.TruthyJson? && json.serialized.Some? ==> Decode(ms[k].data) == Some(json.serialized.value)
      ensures json.TruthyJson? && json.serialized.None? ==> ms[k].data == []
      ensures ms[k].attributes == (if attributes.UndefinedAttributes? || attributes.NullAttributes? then AttributeMap(map[])
                                   else attributes)
    {
      CopiesAt(targets, id, input, PublishMessageAttributes(attributes), first, k);
    }
  }

  lemma CopiesSnoc(targets: seq<Subscription>, t: Subscription, id: string, dataInput: DataInput, attributes: Attributes,
                   first: nat, message: Message)
    requires message == BuildMessage(id, t, dataInput, attributes, first + |targets|)
    ensures Copies(targets + [t], id, dataInput, attributes, first)
            == Copies(targets, id, dataInput, attributes, first) + [message]
  {
    var lhs := Copies(targets + [t], id, dataInput, attributes, first);
    var rhs := Copies(targets, id, dataInput, attributes, first) + [message];
    assert |lhs| == |rhs|;
    forall k | 0 <= k < |lhs| ensures lhs[k] == rhs[k] {
      CopiesAt(targets + [t], id, dataInput, attributes, first, k);
      if k < |targets| {
        assert (targets + [t])[k] == targets[k];
        CopiesAt(targets, id, dataInput, attributes, first, k);
      }
    }
  }

  /** The messages of `ms` owned by `s`, in order. */
  function CopiesFor(ms: seq<Message>, s: Subscription): seq<Message>
    decreases |ms|
  {
    if ms == [] then []
    else CopiesFor(ms[..|ms| - 1], s) + (if ms[|ms| - 1].subscription == s then [ms[|ms| - 1]] else [])
  }

  lemma CopiesForSnoc(ms: seq<Message>, m: Message, s: Subscription)
    ensures CopiesFor(ms + [m], s) == CopiesFor(ms, s) + (if m.subscription == s then [m] else [])
  {
    assert (ms + [m])[..|ms|] == ms;
  }

  /** The targets of the first `i + 1` bound names. */
  lemma LookupAllPrefix<V>(es: seq<Entry<V>>, names: seq<string>, i: nat)
    requires i < |names|
    ensures LookupAll(es, names[..i + 1])
            == LookupAll(es, names[..i]) + (if Find(es, names[i]).Some? then [Find(es, names[i]).value] else [])
  {
    assert names[..i + 1] == names[..i] + [names[i]];
    LookupAllSnoc(es, names[..i], names[i]);
  }

  lemma LookupAllSnoc<V>(es: seq<Entry<V>>, names: seq<string>, n: string)
    ensures LookupAll(es, names + [n]) == LookupAll(es, names) + (if Find(es, n).Some? then [Find(es, n).value] else [])
    decreases |names|
  {
    if names == [] {
      assert [n][1..] == [];
    } else {
      assert (names + [n])[1..] == names[1..] + [n];
      LookupAllSnoc(es, names[1..], n);
    }
  }

  /** What a subscription held when a publish began. */
  datatype Snapshot = Snapshot(listeners: seq<ListenerId>, queue: seq<Message>, log: seq<Delivery>)

  /** Every subscription in `registered` keeps its invariant and its
      listeners, and what it has received since `before` is its share of
      `copies`. */
  ghost predicate ReceivedShares(registered: set<Subscription>, before: map<Subscription, Snapshot>, copies: seq<Message>)
    reads registered
  {
    forall s :: s in registered ==> ReceivedShare(s, before, copies)
  }

  /** `s` keeps its invariant and its listeners, and has received its copies
      of `copies` since `before`. */
  ghost predicate ReceivedShare(s: Subscription, before: map<Subscription, Snapshot>, copies: seq<Message>)
    reads s
  {
    && s.Valid() && s in before && s.listeners == before[s].listeners
    && Received(s.listeners, before[s].queue, before[s].log, s.messageQueue, s.deliveries, CopiesFor(copies, s))
  }

  lemma ShareOfMember(registered: set<Subscription>, before: map<Subscription, Snapshot>, copies: seq<Message>,
                      s: Subscription, snapshot: Snapshot)
    requires ReceivedShares(registered, before, copies) && s in registered
    requires s in before ==> before[s] == snapshot
    ensures s.listeners == snapshot.listeners
    ensures Received(s.listeners, snapshot.queue, snapshot.log, s.messageQueue, s.deliveries, CopiesFor(copies, s))
  {
    assert ReceivedShare(s, before, copies);
  }

  /** One subscription's share after `_queueMessage` on `target`: it grows by
      the new copy exactly when `s` is that target. */
  lemma ShareAfterQueue(s: Subscription, target: Subscription, listeners: seq<ListenerId>, snapshot: Snapshot,
                        q0: seq<Message>, l0: seq<Delivery>, q1: seq<Message>, l1: seq<Delivery>,
                        copies: seq<Message>, message: Message)
    requires message.subscription == target
    requires Received(listeners, snapshot.queue, snapshot.log, q0, l0, CopiesFor(copies, s))
    requires s == target ==> Received(listeners, q0, l0, q1, l1, [message])
    requires s != target ==> q1 == q0 && l1 == l0
    ensures Received(listeners, snapshot.queue, snapshot.log, q1, l1, CopiesFor(copies + [message], s))
  {
    CopiesForSnoc(copies, message, s);
    if s == target {
      ReceivedStep(listeners, snapshot.queue, snapshot.log, q0, l0, q1, l1, CopiesFor(copies, s), message);
    } else {
      assert CopiesFor(copies + [message], s) == CopiesFor(copies, s) + [] == CopiesFor(copies, s);
    }
  }

  /** Before the first copy, every subscription has received nothing. */
  lemma SharesStart(registered: set<Subscription>, before: map<Subscription, Snapshot>)
    requires forall s :: s in registered ==>
               s.Valid() && s in before && before[s] == Snapshot(s.listeners, s.messageQueue, s.deliveries)
    ensures ReceivedShares(registered, before, [])
  {
    forall s | s in registered ensures Received(s.listeners, s.messageQueue, s.deliveries, s.messageQueue, s.deliveries, []) {
      ReceivedNothing(s.listeners, s.messageQueue, s.deliveries);
    }
  }

  /** The shares after one more copy, stated through the copies of one
      more target. */
  lemma SharesSnoc(registered: set<Subscription>, before: map<Subscription, Snapshot>, targets: seq<Subscription>,
                   t: Subscription, id: string, dataInput: DataInput, attributes: Attributes, first: nat, message: Message)
    requires message == BuildMessage(id, t, dataInput, attributes, first + |targets|)
    requires ReceivedShares(registered, before, Copies(targets, id, dataInput, attributes, first) + [message])
    ensures ReceivedShares(registered, before, Copies(targets + [t], id, dataInput, attributes, first))
  {
    CopiesSnoc(targets, t, id, dataInput, attributes, first, message);
  }

  class Topic {
    const projectId: string
    const name: string
    const topics: JsMap<Topic>
    const subscriptions: JsMap<Subscription>
    /** `topicSubscriptionNames`: the canonical names of the subscriptions
        created through this topic, in creation order. */
    var subscriptionNames: seq<string>

    /** `createTopic`: a handle; registering it is the caller's business. */
    constructor(projectId: string, name: string, topics: JsMap<Topic>, subscriptions: JsMap<Subscription>)
      ensures this.projectId == projectId && this.name == name
      ensures this.topics == topics && this.subscriptions == subscriptions
      ensures subscriptionNames == []
    {
      this.projectId := projectId;
      this.name := name;
      this.topics := topics;
      this.subscriptions := subscriptions;
      subscriptionNames := [];
    }

    /** `delete()`: code 5 when no topic is registered under this name;
        otherwise that entry, and only that one, is removed. */
    method Delete() returns (r: Outcome<LibError>)
      requires topics.Valid()
      modifies topics
      ensures topics.Valid()
      ensures HasKey(old(topics.entries), name) ==>
                r == Pass && topics.entries == Without(old(topics.entries), name)
      ensures !HasKey(old(topics.entries), name) ==>
                r == Fail(MakeLibError(NOT_FOUND, "NOT_FOUND: Topic not found")) && topics.entries == old(topics.entries)
    {
      if !topics.Has(name) {
        return Fail(MakeLibError(NOT_FOUND, "NOT_FOUND: Topic not found"));
      }
      var _ := topics.Delete(name);
      r := Pass;
    }

    /** `createSubscription(subscriptionName)`: code 3 for a malformed name,
        code 6 when the canonical name is registered; otherwise a new
        subscription is registered under it and the name is bound here. */
    method CreateSubscription(subscriptionName: string) returns (r: Result<Subscription, LibError>)
      requires AllValid(subscriptions)
      modifies this, subscriptions
      ensures AllValid(subscriptions)
      ensures MakeSubscriptionName(projectId, subscriptionName).Err? ==>
                && r == Err(MakeSubscriptionName(projectId, subscriptionName).error)
                && subscriptions.entries == old(subscriptions.entries) && subscriptionNames == old(subscriptionNames)
      ensures MakeSubscriptionName(projectId, subscriptionName).Ok? ==>
                var n := MakeSubscriptionName(projectId, subscriptionName).value;
                if HasKey(old(subscriptions.entries), n) then
                  && r == Err(MakeLibError(ALREADY_EXISTS, "ALREADY_EXISTS: Subscription already exists"))
                  && subscriptions.entries == old(subscriptions.entries) && subscriptionNames == old(subscriptionNames)
                else
                  && r.Ok? && fresh(r.value)
                  && r.value.name == n && r.value.projectId == projectId && r.value.subscriptions == subscriptions
                  && r.value.listeners == [] && r.value.messageQueue == [] && r.value.deliveries == []
                  && subscriptions.entries == old(subscriptions.entries) + [Entry(n, r.value)]
                  && subscriptionNames == old(subscriptionNames) + [n]
    {
      var canonical := MakeSubscriptionName(projectId, subscriptionName);
      if canonical.Err? {
        return Err(canonical.error);
      }
      var n := canonical.value;
      if subscriptions.Has(n) {
        return Err(MakeLibError(ALREADY_EXISTS, "ALREADY_EXISTS: Subscription already exists"));
      }
      var subscription := new Subscription(projectId, n, subscriptions, true);
      PutAbsent(old(subscriptions.entries), n, subscription);
      ValueSetAppend(old(subscriptions.entries), Entry(n, subscription));
      subscriptionNames := subscriptionNames + [n];
      r := Ok(subscription);
    }

    /** `getSubscriptions()`: the registered subscriptions for the bound names,
        in bound order; names no longer registered are skipped. */
    function GetSubscriptions(): (r: seq<Subscription>)
      reads this, subscriptions
      ensures forall k :: 0 <= k < |r| ==>
                exists i :: 0 <= i < |subscriptionNames| && Find(subscriptions.entries, subscriptionNames[i]) == Some(r[k])
      ensures forall i :: 0 <= i < |subscriptionNames| && Find(subscriptions.entries, subscriptionNames[i]).Some? ==>
                Find(subscriptions.entries, subscriptionNames[i]).value in r
    {
      var r := LookupAll(subscriptions.entries, subscriptionNames);
      assert forall k :: 0 <= k < |r| ==>
               exists i :: 0 <= i < |subscriptionNames| && Find(subscriptions.entries, subscriptionNames[i]) == Some(r[k]) by {
        forall k | 0 <= k < |r| ensures
                  exists i :: 0 <= i < |subscriptionNames| && Find(subscriptions.entries, subscriptionNames[i]) == Some(r[k]) {
          LookupAllMembers(subscriptions.entries, subscriptionNames, r[k]);
        }
      }
      assert forall i :: 0 <= i < |subscriptionNames| && Find(subscriptions.entries, subscriptionNames[i]).Some? ==>
               Find(subscriptions.entries, subscriptionNames[i]).value in r by {
        forall i | 0 <= i < |subscriptionNames| && Find(subscriptions.entries, subscriptionNames[i]).Some?
          ensures Find(subscriptions.entries, subscriptionNames[i]).value in r {
          LookupAllMembers(subscriptions.entries, subscriptionNames, Find(subscriptions.entries, subscriptionNames[i]).value);
        }
      }
      r
    }

    /** `subscription(name)`: a lookup that leaves both registries alone. */
    method Subscription(subscriptionName: string) returns (r: Result<Subscription, LibError>)
      requires subscriptions.Valid()
      ensures MakeSubscriptionName(projectId, subscriptionName).Err? ==>
                r == Err(MakeSubscriptionName(projectId, subscriptionName).error)
      ensures MakeSubscriptionName(projectId, subscriptionName).Ok? ==>
                var n := MakeSubscriptionName(projectId, subscriptionName).value;
                && r.Ok?
                && (HasKey(subscriptions.entries, n) ==> Find(subscriptions.entries, n) == Some(r.value))
                && (!HasKey(subscriptions.entries, n) ==> fresh(r.value) && r.value.name == n && r.value.Valid())
    {
      r := GetSubscription(projectId, subscriptionName, subscriptions);
    }

    /** Queues on `subscription` the copy that follows the copies already
        made for `targets`; every other subscription is left as it was. */
    method DeliverCopy(subscription: Subscription, messageId: string, dataInput: DataInput, attributes: Attributes,
                       counter: SequenceCounter, random: RandomSource, ghost registered: set<Subscription>,
                       ghost before: map<Subscription, Snapshot>, ghost first: nat, ghost targets: seq<Subscription>)
      requires subscription in registered
      requires counter.sequentialNumber + 1 == first + |targets|
      requires ReceivedShares(registered, before, Copies(targets, messageId, dataInput, attributes, first))
      modifies counter, random, registered
      ensures counter.sequentialNumber + 1 == first + |targets| + 1
      ensures ReceivedShares(registered, before, Copies(targets + [subscription], messageId, dataInput, attributes, first))
    {
      ghost var copies := Copies(targets, messageId, dataInput, attributes, first);
      var message := CreateMessage(messageId, subscription, dataInput, attributes, counter);
      assert message == BuildMessage(messageId, subscription, dataInput, attributes, first + |targets|);
      subscription.QueueMessage(message, random);
      forall s | s in registered
        ensures ReceivedShare(s, before, copies + [message])
      {
        assert old(ReceivedShare(s, before, copies));
        ShareAfterQueue(s, subscription, s.listeners, before[s], old(s.messageQueue), old(s.deliveries),
                        s.messageQueue, s.deliveries, copies, message);
      }
      SharesSnoc(registered, before, targets, subscription, messageId, dataInput, attributes, first, message);
    }

    /** One turn of the delivery loop, for the `i`-th bound name: a copy for
        the subscription registered under it, if there is one. */
    method DeliverToName(i: nat, messageId: string, dataInput: DataInput, attributes: Attributes,
                         counter: SequenceCounter, random: RandomSource, ghost registered: set<Subscription>,
                         ghost before: map<Subscription, Snapshot>, ghost first: nat, ghost targets: seq<Subscription>)
      returns (ghost targets': seq<Subscription>)
      requires i < |subscriptionNames| && ValueSet(subscriptions.entries) <= registered
      requires targets == LookupAll(subscriptions.entries, subscriptionNames[..i])
      requires counter.sequentialNumber + 1 == first + |targets|
      requires ReceivedShares(registered, before, Copies(targets, messageId, dataInput, attributes, first))
      modifies counter, random, registered
      ensures targets' == LookupAll(subscriptions.entries, subscriptionNames[..i + 1])
      ensures counter.sequentialNumber + 1 == first + |targets'|
      ensures ReceivedShares(registered, before, Copies(targets', messageId, dataInput, attributes, first))
    {
      var lookedUp := subscriptions.Get(subscriptionNames[i]);
      LookupAllPrefix(subscriptions.entries, subscriptionNames, i);
      if lookedUp.Some? {
        FoundInValueSet(subscriptions.entries, subscriptionNames[i]);
        DeliverCopy(lookedUp.value, messageId, dataInput, attributes, counter, random, registered, before, first, targets);
        targets' := targets + [lookedUp.value];
      } else {
        targets' := targets;
      }
    }

    /** The delivery loop: one copy per bound name still registered, in
        bound order. */
    method DeliverEach(messageId: string, dataInput: DataInput, attributes: Attributes,
                       counter: SequenceCounter, random: RandomSource, ghost registered: set<Subscription>,
                       ghost before: map<Subscription, Snapshot>)
      returns (ghost copies: seq<Message>)
      requires ValueSet(subscriptions.entries) <= registered
      requires ReceivedShares(registered, before, [])
      modifies counter, random, registered
      ensures counter.sequentialNumber == old(counter.sequentialNumber) + |GetSubscriptions()|
      ensures copies == Copies(GetSubscriptions(), messageId, dataInput, attributes, old(counter.sequentialNumber) + 1)
      ensures ReceivedShares(registered, before, copies)
    {
      ghost var first := counter.sequentialNumber + 1;
      ghost var targets: seq<Subscription> := [];
      var i := 0;
      while i < |subscriptionNames|
        invariant 0 <= i <= |subscriptionNames|
        invariant targets == LookupAll(subscriptions.entries, subscriptionNames[..i])
        invariant counter.sequentialNumber + 1 == first + |targets|
        invariant ReceivedShares(registered, before, Copies(targets, messageId, dataInput, attributes, first))
      {
        targets := DeliverToName(i, messageId, dataInput, attributes, counter, random, registered, before, first, targets);
        i := i + 1;
      }
      assert subscriptionNames[..i] == subscriptionNames;
      copies := Copies(targets, messageId, dataInput, attributes, first);
    }

    /** The fan-out shared by `publish` and `publishMessage`: every registered
        subscription receives exactly its share of the copies. */
    method FanOut(messageId: string, dataInput: DataInput, attributes: Attributes,
                  counter: SequenceCounter, random: RandomSource)
      requires AllValid(subscriptions)
      modifies counter, random, Registered(subscriptions)
      ensures AllValid(subscriptions)
      ensures counter.sequentialNumber == old(counter.sequentialNumber) + |GetSubscriptions()|
      ensures forall s :: s in Registered(subscriptions) ==>
                && s.listeners == old(s.listeners)
                && Received(s.listeners, old(s.messageQueue), old(s.deliveries), s.messageQueue, s.deliveries,
                            CopiesFor(Copies(GetSubscriptions(), messageId, dataInput, attributes,
                                             old(counter.sequentialNumber) + 1), s))
    {
      ghost var registered := Registered(subscriptions);
      ghost var before: map<Subscription, Snapshot> :=
        map s: Subscription | s in registered :: Snapshot(s.listeners, s.messageQueue, s.deliveries);
      SharesStart(registered, before);
      ghost var targets := GetSubscriptions();
      ghost var first := counter.sequentialNumber + 1;
      ghost var copies := DeliverEach(messageId, dataInput, attributes, counter, random, registered, before);
      assert GetSubscriptions() == targets && first == old(counter.sequentialNumber) + 1;
      ghost var shares := Copies(GetSubscriptions(), messageId, dataInput, attributes, old(counter.sequentialNumber) + 1);
      assert ReceivedShares(registered, before, shares) by { assert shares == copies; }
      assert Registered(subscriptions) == registered;
      forall s | s in Registered(subscriptions)
        ensures s.listeners == old(s.listeners)
        ensures Received(s.listeners, old(s.messageQueue), old(s.deliveries), s.messageQueue, s.deliveries, CopiesFor(shares, s))
      {
        ShareOfMember(registered, before, shares, s, old(Snapshot(s.listeners, s.messageQueue, s.deliveries)));
      }
    }

    /** `publish(data, attributes)`: draws one message id, then queues one copy
        on every bound subscription still registered, in bound order; the id is
        returned whether or not any copy was made. */
    method Publish(data: DataInput, attributes: Attributes, counter: SequenceCounter, random: RandomSource)
      returns (messageId: string)
      requires AllValid(subscriptions)
      modifies counter, random, Registered(subscriptions)
      ensures AllValid(subscriptions)
      ensures messageId == NatToDecimal(old(counter.sequentialNumber) + 1)
      ensures counter.sequentialNumber == old(counter.sequentialNumber) + 1 + |GetSubscriptions()|
      ensures forall s :: s in Registered(subscriptions) ==>
                && s.listeners == old(s.listeners)
                && Received(s.listeners, old(s.messageQueue), old(s.deliveries), s.messageQueue, s.deliveries,
                            CopiesFor(Copies(GetSubscriptions(), messageId, data, PublishAttributes(attributes),
                                             old(counter.sequentialNumber) + 2), s))
    {
      messageId := counter.MakeSequentialNumberString();
      FanOut(messageId, data, PublishAttributes(attributes), counter, random);
    }

    /** `publishMessage({data, json, attributes})`: as `publish`, with the
        payload taken from `json` when that is truthy. */
    method PublishMessage(data: DataInput, json: JsonOption, attributes: Attributes,
                          counter: SequenceCounter, random: RandomSource)
      returns (messageId: string)
      requires AllValid(subscriptions)
      modifies counter, random, Registered(subscriptions)
      ensures AllValid(subscriptions)
      ensures messageId == NatToDecimal(old(counter.sequentialNumber) + 1)
      ensures counter.sequentialNumber == old(counter.sequentialNumber) + 1 + |GetSubscriptions()|
      ensures forall s :: s in Registered(subscriptions) ==>
                && s.listeners == old(s.listeners)
                && Received(s.listeners, old(s.messageQueue), old(s.deliveries), s.messageQueue, s.deliveries,
                            CopiesFor(Copies(GetSubscriptions(), messageId, PublishMessageData(json, data),
                                             PublishMessageAttributes(attributes), old(counter.sequentialNumber) + 2), s))
    {
      messageId := counter.MakeSequentialNumberString();
      FanOut(messageId, PublishMessageData(json, data), PublishMessageAttributes(attributes), counter, random);
    }
  }
}
