# An in-memory Pub/Sub test double, modelled in Dafny

The system is a stand-in for the Google Cloud Pub/Sub client. Tests use it
to publish messages and receive them with no network. It has two
generations, and this project models the core of both.

**The TypeScript engine** (`src/utils.ts`, `src/subscription.ts`,
`src/message.ts`, `src/topic.ts`, `src/mock-pubsub.ts`):

- Two process-wide, insertion-ordered maps hold the topics and the
  subscriptions under their canonical names,
  `projects/<project>/{topics|subscriptions}/<name>`. A name that already
  starts with `projects/` must match the name pattern, or it is rejected
  with error code 3.
- A topic remembers the names of the subscriptions created through it.
- Publishing draws one message id from a process-wide counter. It then
  builds one copy of the message for every remembered name that is still
  registered, in order. Each copy gets its own acknowledgement id,
  `<subscription name>:<counter>`.
- Each copy is handed to its subscription's `_queueMessage`. A
  subscription keeps a list of listeners and a queue of waiting messages.
  While it has a listener, every queued message goes at once to one
  listener, picked at random.
- A negative acknowledgement puts the same message back on its
  subscription.

**The legacy JavaScript engine** (`src/main.js`, `src/mock-pubsub.js`):

- A single configuration call binds each topic to a list of subscription
  names.
- Publishing adds one message to each listed subscription.
- A subscription hands every message to *all* of its callbacks and keeps
  a list of delivered messages. With no callback, the message waits in a
  pending list until the first callback arrives.
- `mock-pubsub.js` is a separate, minimal topic registry. Its names are
  not validated, and a lookup of an unknown name returns one shared
  placeholder whose `delete` fails.

How the source maps onto the model:

- **Classes and maps.** Every object whose state the source changes in
  place is a `class`:
  - a JavaScript `Map` is `JsMaps.JsMap`, a sequence of entries that
    keeps insertion order;
  - a subscription is `Subscriptions.Subscription` or
    `LegacyMain.LegacySubscription`;
  - a topic is `Topics.Topic` or `LegacyMockPubSub.LegacyTopic`;
  - the module-level objects of `main.js` are `LegacyMain.Mocker`;
  - the module-level counter is `Utils.SequenceCounter`.
- **Listeners and callbacks** are numbers. Calling one is recorded in a
  log: `deliveries` in the TypeScript engine, `invocations` in the
  legacy one.
- **`Math.random()`** is an injected source, `Utils.RandomSource`. It is
  an arbitrary but fixed sequence of draws in `[0, 1)` and counts how
  many draws have been taken. `pickRandom` is then `floor(draw * length)`.
- **The inline topic factory.** `createTopic` inside `src/mock-pubsub.ts`
  (lines 91-173) works like the parameterised `createTopic` of
  `src/topic.ts`, apart from lacking `getSubscriptions`. Both are
  modelled by `Topics.Topic`; the table cites `src/topic.ts`.
- **Thrown errors** are values. A thrown or rejected `libError` is
  `Err`/`Fail` of a `Utils.LibError`, and an `undefined` lookup is
  `None`.

The main results:

- **Name canonicalisation** is proved correct against the language of the
  name regular expression, in both directions. It is also proved
  idempotent, under the conditions it needs: one lemma gives the input
  that breaks idempotence.
- **Error messages** can be read back into their code and text.
- **Draining** a queue delivers every message exactly once, in FIFO
  order, to a current listener. The invariant "a listener exists ⇒ the
  queue is empty" is preserved.
- **Publishing** leaves each registered subscription having received
  exactly its own copies, in order. All copies share the returned id, and
  no two share an acknowledgement id.
- **The legacy engine** has the same per-subscription statement for
  publishing, with broadcast delivery. An exact pending/delivered account
  is proved for `on`, `nack` and callback removal.

## Model

| member | source | states |
|---|---|---|
| Utils.MakeLibError | src/utils.ts:3-8 | the error carries the given code, and its message ends with the given text after the rendered code |
| Utils.LibErrorMessageRoundTrip | src/utils.ts:3-8 | the message splits at its first space into exactly the code and the text |
| Decimal.NatToDecimal | src/utils.ts:21 | `String(n)` is non-empty and all digits, with no leading zero unless n is 0 |
| Decimal.ParseNatToDecimal | src/utils.ts:21 | reading the decimal rendering back gives the number |
| Decimal.NatToDecimalInjective | src/utils.ts:21 | distinct counter values render to distinct strings |
| Decimal.IntToDecimal | src/utils.ts:4 | the code rendering is non-empty and holds no space and no colon |
| Decimal.ParseIntToDecimal | src/utils.ts:4 | reading an integer rendering back gives the integer, negative ones included |
| Utils.PickIndex | src/utils.ts:15 | `floor(random * length)` lies in `[0, length)` for a non-empty list, and is 0 for an empty one |
| Utils.PickRandom | src/utils.ts:14-16 | `undefined` exactly for the empty list; otherwise an element of the list |
| Utils.EveryItemCanBePicked | src/utils.ts:14-16 | every position of a non-empty list is picked by some draw |
| Utils.RandomSource.Next | src/utils.ts:15 | a call returns the next draw and advances the draw count by one |
| Utils.SequenceCounter.MakeSequentialNumberString | src/utils.ts:18-22 | the counter goes up by exactly one, and the result is the new value in decimal |
| Utils.SequenceStringsIncrease | src/utils.ts:18-22 | strings from two different counter values differ and read back in increasing order |
| Utils.HasSeparatorFrom | src/utils.ts:24 | true exactly when the separator occurs at or after the position with a character after it |
| Utils.TestNamePattern | src/utils.ts:24 | `NAME_REGEX.test` holds exactly when the name is `projects/` + A + `/<collection>/` + B with A, B non-empty and free of line terminators |
| Utils.TestNamePatternCorrect | src/utils.ts:44 | the executable test and the regular-expression language agree in both directions |
| Utils.TestNamePatternSound | src/utils.ts:24 | a name passing the test is in the language |
| Utils.TestNamePatternComplete | src/utils.ts:44 | a name in the language passes the test |
| Utils.MakeName | src/utils.ts:24-62 | a short name is placed under the project; a `projects/` name is kept iff it matches the pattern, otherwise code 3 with the name in the text; every success starts with `projects/` |
| Utils.MakeNameIdempotent | src/utils.ts:24-62 | canonicalising a canonical name returns it unchanged, when the project id and short name are non-empty and free of line terminators |
| Utils.NewlineNameIsNotIdempotent | src/utils.ts:24-42 | a short topic name holding a newline is accepted once and rejected on a second pass |
| Utf8.Encode | src/message.ts:19 | `Buffer.from(string)` gives at least one byte per character |
| Utf8.EncodeChar | src/message.ts:19 | one to four bytes per character, one exactly for ASCII |
| Utf8.DecodeChar | src/message.ts:19 | a decoded character takes between one byte and the bytes available |
| Utf8.DecodeEncodeChar | src/message.ts:19 | decoding the encoding of one character gives it back, whatever follows |
| Utf8.DecodeEncode | src/message.ts:19 | decoding the encoding of a string gives the string back |
| Utf8.EncodeAscii | src/message.ts:19 | ASCII text encodes to one byte per character, with the same values |
| JsMaps.Find | src/mock-pubsub.ts:21-22 | `map.get` answers `undefined` exactly for an absent key, and otherwise the value stored under it |
| JsMaps.Values | src/mock-pubsub.ts:52 | `Array.from(map.values())` lists the values in entry order |
| JsMaps.FoundInValueSet | src/mock-pubsub.ts:33 | what `get` answers is one of the stored values |
| JsMaps.ValueSetAppend | src/subscription.ts:79 | setting a new key adds exactly its value to the stored values |
| JsMaps.FindPut | src/mock-pubsub.ts:75 | after `set`, `get` answers the new value for that key and the old answer for every other key |
| JsMaps.PutAbsent | src/mock-pubsub.ts:75 | `set` on an absent key appends the entry at the end of the insertion order |
| JsMaps.PutPresent | src/subscription.ts:78-80 | `set` on a present key replaces its value where it stands: same length, same keys in the same order, every other entry unchanged |
| JsMaps.KeysOfPut | src/subscription.ts:79 | after `set` the keys are the old keys plus the key set |
| JsMaps.PutUnique | src/subscription.ts:79 | `set` keeps keys unique |
| JsMaps.FindWithout | src/topic.ts:40 | after `delete`, `get` answers `undefined` for that key and the old answer for every other key |
| JsMaps.WithoutIsSubsequence | src/topic.ts:40 | `delete` keeps exactly the other entries |
| JsMaps.WithoutAbsent | src/topic.ts:40 | deleting an absent key changes nothing |
| JsMaps.WithoutUnique | src/subscription.ts:54 | `delete` keeps keys unique |
| JsMaps.LookupAllMembers | src/topic.ts:124-126 | mapping names through `get` and dropping `undefined` keeps exactly the values found for some name |
| JsMaps.JsMap.constructor | src/mock-pubsub.ts:21-22 | a new map is empty |
| JsMaps.JsMap.Has | src/topic.ts:36 | `has` answers whether the key is present |
| JsMaps.JsMap.Set | src/subscription.ts:79 | the entries become those of `set`, and keys stay unique |
| JsMaps.JsMap.Delete | src/subscription.ts:54 | the entries become those of `delete`, the answer says whether the key was there, and keys stay unique |
| Subscriptions.DrainDeliversEachOnce | src/subscription.ts:32-39 | a drain makes one call per queued message, in queue order, each to a registered listener, the k-th chosen by the k-th draw |
| Subscriptions.DrainLogSnoc | src/subscription.ts:32-37 | draining one more message adds exactly one call at the end |
| Subscriptions.ReceivedStep | src/subscription.ts:72-75 | two rounds of `_queueMessage` compose into one |
| Subscriptions.ReceivedNothing | src/subscription.ts:72-75 | receiving no messages leaves the state as it was |
| Subscriptions.Subscription.constructor | src/subscription.ts:13-27 | the subscription starts with no listener, an empty queue and empty logs; it is put in the registry under its name exactly when `registerSubscription` holds |
| Subscriptions.Subscription.ProcessMessageQueue | src/subscription.ts:28-40 | with no listener, nothing changes; otherwise every queued message is delivered in order, the queue ends empty, and one draw is taken per message |
| Subscriptions.Subscription.On | src/subscription.ts:57-66 | an event other than `message` changes nothing; otherwise the listener is appended and the queue is drained, keeping the invariant |
| Subscriptions.Subscription.RemoveAllListeners | src/subscription.ts:67-70 | no listener remains; the queue and the log are untouched |
| Subscriptions.Subscription.QueueMessage | src/subscription.ts:72-75 | with no listener the message joins the queue; otherwise it is delivered, to the listener the next draw picks, and the queue stays empty |
| Subscriptions.Subscription.Delete | src/subscription.ts:45-56 | code 3 if the name does not canonicalise; code 5 if the canonical name is not registered; otherwise exactly that entry is removed |
| Subscriptions.GetSubscription | src/mock-pubsub.ts:24-41 | code 3 for a malformed name; otherwise the registered subscription, or a fresh, empty, unregistered one; the registry is not touched |
| Messages.NormalizePayload | src/message.ts:17-19 | a buffer is kept, a string of Unicode scalar values is stored so that it decodes back to itself, anything else becomes empty |
| Messages.AckIdInjective | src/message.ts:23 | an ack id determines its subscription name and its counter value |
| Messages.CreateMessage | src/message.ts:5-55 | the counter advances by one; the ack id is the name, `:` and the new counter value; the id, payload, length, attributes and constant fields are as given |
| Messages.Settle | src/message.ts:35-51 | acknowledgements change nothing; `nack` and `nackWithResponse` hand the same message to its subscription's `_queueMessage`; the response variants resolve to `SUCCESS` |
| Topics.PublishedCopies | src/topic.ts:64-85 | every copy of `publish` carries the payload of `data`, and `{}` as attributes when none or a callback was passed, the given attributes otherwise |
| Topics.PublishedMessageCopies | src/topic.ts:87-110 | every copy of `publishMessage` carries the serialised `json` when it is truthy (decoding back to that text, empty when serialising gives `undefined`), the payload of `data` otherwise, and `{}` as attributes when they are missing or `null` |
| Topics.Copies | src/topic.ts:67-82 | one copy per target |
| Topics.CopiesAt | src/topic.ts:67-82 | the k-th copy is built for the k-th target from counter value `first + k` |
| Topics.CopiesShareIdNotAckId | src/topic.ts:64-85 | every copy carries the shared id, its own target and the same payload; no two copies share an ack id |
| Topics.CopiesSnoc | src/topic.ts:67-82 | one more target adds one copy at the end |
| Topics.LookupAllSnoc | src/topic.ts:124-126 | one more bound name adds its registered subscription, if any, at the end |
| Topics.Topic.constructor | src/topic.ts:17-30 | a new topic has its name and project and no bound names |
| Topics.Topic.Delete | src/topic.ts:35-42 | code 5 when the name is not registered; otherwise exactly that entry is removed |
| Topics.Topic.CreateSubscription | src/topic.ts:44-62 | code 3 for a malformed name, code 6 for a registered one, both changing nothing; otherwise a fresh, empty subscription is registered at the end and its name is bound last |
| Topics.Topic.GetSubscriptions | src/topic.ts:123-129 | every result is registered under some bound name, and every bound name still registered contributes its subscription |
| Topics.Topic.Subscription | src/topic.ts:114-121 | the registered subscription, or a fresh unregistered one under the canonical name; code 3 for a malformed name; neither map changes |
| Topics.Topic.DeliverCopy | src/topic.ts:70-80 | one more copy is queued on the subscription; every registered subscription has exactly its share of the copies made so far |
| Topics.Topic.DeliverToName | src/topic.ts:67-82 | a bound name that is registered gets its copy; an unregistered one is skipped |
| Topics.Topic.DeliverEach | src/topic.ts:67-82 | one counter value per subscription reached; every registered subscription has received exactly its copies |
| Topics.Topic.FanOut | src/topic.ts:67-82 | every registered subscription keeps its listeners and receives exactly its own copies, in bound order |
| Topics.Topic.Publish | src/topic.ts:64-85 | the returned id is the next counter value; one copy is received by each bound subscription still registered, in order; the counter advances once more per copy |
| Topics.Topic.PublishMessage | src/topic.ts:87-110 | as `publish`, with data from `json` when it is truthy and `null` attributes made `undefined` |
| MockPubSub.FilterByPrefix | src/mock-pubsub.ts:52-54 | the filter keeps only values of the input |
| MockPubSub.FilterByPrefixMembers | src/mock-pubsub.ts:52-54 | the filter keeps exactly the values whose name has the prefix |
| MockPubSub.FilterByPrefixAppend | src/mock-pubsub.ts:61-64 | the filter keeps the order |
| MockPubSub.ValuesMembers | src/mock-pubsub.ts:61 | `Array.from(map.values())` holds the map's values |
| MockPubSub.PubSub.constructor | src/mock-pubsub.ts:47-49 | the project id defaults to `{{projectId}}` |
| MockPubSub.PubSub.GetTopics | src/mock-pubsub.ts:51-58 | exactly the registered topics whose names start with `projects/<projectId>/` |
| MockPubSub.PubSub.GetSubscriptions | src/mock-pubsub.ts:60-67 | exactly the registered subscriptions whose names start with `projects/<projectId>/` |
| MockPubSub.PubSub.CreateTopic | src/mock-pubsub.ts:69-79 | code 3 for a malformed name; code 6 if the canonical name is registered, changing nothing; otherwise a fresh topic is added at the end |
| MockPubSub.PubSub.Topic | src/mock-pubsub.ts:81-84 | the registered topic, or a fresh unregistered placeholder with the canonical name; code 3 for a malformed name; the registry is untouched |
| MockPubSub.PubSub.Subscription | src/mock-pubsub.ts:86-88 | the registered subscription, or a fresh unregistered one; the registry is untouched |
| LegacyMain.BroadcastCallsEach | src/main.js:43 | a broadcast calls every callback once, in order, with the message |
| LegacyMain.FlushCallsInOrder | src/main.js:57-60 | the new callback is called once per pending message, in FIFO order |
| LegacyMain.RemoveCallbackMembers | src/main.js:65 | the filter keeps exactly the callbacks other than the one removed |
| LegacyMain.RemoveCallbackAppend | src/main.js:65 | the filter keeps the order of the rest |
| LegacyMain.ProcessedNothing | src/main.js:41-48 | processing no messages leaves the state as it was |
| LegacyMain.ProcessedStep | src/main.js:41-48 | two rounds of `processMessage` compose into one |
| LegacyMain.BroadcastAllSnoc | src/main.js:43 | one more message adds one broadcast at the end |
| LegacyMain.LegacySubscription.constructor | src/main.js:26-29 | delivered, pending and callbacks all start empty |
| LegacyMain.LegacySubscription.ProcessMessage | src/main.js:41-48 | with callbacks, all are called in order and the message is delivered; otherwise it is pending |
| LegacyMain.LegacySubscription.Add | src/main.js:51-53 | a message with the next draw as `ack_id` and this subscription as owner is processed, and one draw is taken |
| LegacyMain.LegacySubscription.On | src/main.js:54-63 | other events change nothing; for `message`, pending is handed to the callback in FIFO order and then delivered, pending empties, and the callback goes last |
| LegacyMain.LegacySubscription.RemoveListener | src/main.js:64-66 | every occurrence of that callback is removed, the rest keep their order; pending and delivered are untouched |
| LegacyMain.LegacySubscription.RemoveAllListeners | src/main.js:67-69 | no callback remains; pending and delivered are untouched |
| LegacyMain.Nack | src/main.js:36-38 | the same message goes through its owner's `processMessage` again |
| LegacyMain.AssignAllKeys | src/main.js:7-8 | after configuration the topic keys are the old ones plus those configured |
| LegacyMain.AssignAllLast | src/main.js:7-8 | the last configuration entry for a topic decides its name list |
| LegacyMain.ListedSnoc | src/main.js:9-11 | the names configured by one more entry are those before plus its list |
| LegacyMain.Publications | src/main.js:20-21 | one message per listed name |
| LegacyMain.PublicationAt | src/main.js:20-21 | the k-th message of a publish drew the k-th draw and belongs to the k-th listed subscription |
| LegacyMain.OwnedBySnoc | src/main.js:20-21 | one more message adds to its owner's share only |
| LegacyMain.Mocker.constructor | src/main.js:3-4 | no topics and no subscriptions |
| LegacyMain.Mocker.Configure | src/main.js:7-12 | the topic is bound to the list; each listed name gets a fresh, empty subscription; other names keep theirs |
| LegacyMain.Mocker.InitializeMocker | src/main.js:6-13 | topics are the configuration applied in order; each listed name holds a fresh, empty subscription, which `subscription` then answers; every other name answers as before |
| LegacyMain.Mocker.Publish | src/main.js:17-24 | a `TypeError` for an unconfigured topic, with nothing changed; otherwise every subscription has processed exactly its messages of the publish, in list order, one draw each |
| LegacyMain.Mocker.AddEach | src/main.js:20-22 | the loop takes one draw per listed name, and every subscription has processed exactly its messages so far |
| LegacyMain.Mocker.AddOne | src/main.js:21 | one `_add` on the next listed subscription keeps every other subscription's share |
| LegacyMockPubSub.FullTopicName | src/mock-pubsub.js:15 | `projects/<pid>/topics/<name>`, built with no validation, ending in the name |
| LegacyMockPubSub.FullTopicNameInjective | src/mock-pubsub.js:15 | within one project, distinct short names give distinct full names |
| LegacyMockPubSub.ErrorCodes | src/mock-pubsub.js:45-49 | codes 6 and 5, and each message reads back as its code and text |
| LegacyMockPubSub.LegacyTopic.constructor | src/mock-pubsub.js:32-37 | the topic keeps the name it was made with |
| LegacyMockPubSub.LegacyTopic.Delete | src/mock-pubsub.js:34-36 | the entry under the topic's name is removed, and it never fails |
| LegacyMockPubSub.DeleteTopic | src/mock-pubsub.js:39-43 | a registered topic removes its entry; the placeholder fails with code 5 |
| LegacyMockPubSub.LegacyPubSub.constructor | src/mock-pubsub.js:5-8 | the project id is kept as given |
| LegacyMockPubSub.LegacyPubSub.GetTopics | src/mock-pubsub.js:10-12 | every registered topic of every project, in registration order |
| LegacyMockPubSub.LookupName | src/mock-pubsub.js:24-27 | the name looked up always starts with `projects` |
| LegacyMockPubSub.LegacyPubSub.Topic | src/mock-pubsub.js:24-29 | a registered topic exactly when its name has an entry; otherwise the shared placeholder |
| LegacyMockPubSub.LegacyPubSub.CreateTopic | src/mock-pubsub.js:14-22 | code 6 if the full name is registered, changing nothing; otherwise a fresh topic is registered last, and for a short name not starting with `projects`, `topic` then answers it |
| LegacyMockPubSub.TopicAfterCreate | src/mock-pubsub.js:14-27 | for a short name not starting with `projects`, the lookup `topic` makes finds the topic `createTopic` just registered |
| LegacyMockPubSub.ProjectsNameNotFoundAfterCreate | src/mock-pubsub.js:24-27 | the short name `projects-a` is registered under its full name, but `topic` looks it up unchanged and finds nothing |
| LegacyMockPubSub.IntendedLookupName | src/mock-pubsub.js:24-27 | with the guard on `projects/`, the looked-up name starts with `projects/` |
| LegacyMockPubSub.IntendedTopicAfterCreate | src/mock-pubsub.js:14-27 | with the guard on `projects/`, every short name `createTopic` accepts is found again |
| LegacyMockPubSub.TopicAfterDelete | src/mock-pubsub.js:35 | after `delete`, a lookup of that name finds nothing, and every other name answers as before |

## Left out

- Timers: the `delay(5)` before a publish and the 10 ms `setTimeout` in
  `nack` are event-loop scheduling. A publish is one atomic step, and a
  negative acknowledgement queues the message at once.
- `Math.random()` is floating point. Draws are injected as arbitrary
  values in `[0, 1)`, and the choice is `floor(draw * length)`, carried
  out exactly.
- Utils.PickRandom: only membership and reachability are proved. That
  the choice is uniform is not stated.
- Utils.SequenceCounter.MakeSequentialNumberString: above 2^53 a
  JavaScript number loses precision. The counter is an unbounded natural
  number.
- The `publishTime` and `received` timestamps of a message come from the
  clock and are not modelled.
- `JSON.stringify` is a foreign call. Its result is an input:
  `JsValues.JsonOption` says whether `json` is truthy and what text
  serialising it gives.
- Utf8.Encode: a JavaScript string is UTF-16 and may hold an unpaired
  surrogate such as `'\uD800'`, which `Buffer.from` turns into EF BF BD.
  A Dafny `string` holds only Unicode scalar values, so such strings
  cannot be represented, and the round trip is proved only for the others.
- Messages.NormalizePayload: for the same reason, that a string payload
  with an unpaired surrogate comes back as `'\uFFFD'` is not modelled.
- Utf8.Decode is proved only as the inverse of encoding. How
  `buffer.toString()` replaces malformed byte sequences is not modelled.
- Listener and callback bodies, and their asynchronous completion, are
  not modelled. A call is an entry in the delivery log. A listener that
  re-enters the engine during a drain or a broadcast is not modelled.
- The `if (listener)` guard of `processMessageQueue` (src/subscription.ts:34)
  cannot fail here, because listeners are numbers, never falsy values.
- The no-op stubs are not modelled: `setPublishOptions`, `close`,
  `endParentSpan` and `ackFailed`. `ack` and `modAck` are the no-op
  branches of `Messages.Settle`.
- `src/types.ts` (types only) is not part of this model.
- `src/mock-pubsub-with-test-options.ts` and the `testOptions` argument
  are not part of this model. No modelled code reads them.
- The tests and the jest configuration are not part of this model.
- `src/topic.ts:13` imports `getSubscription` from `./subscription`,
  whose shown version does not define it. `Topics.Topic.Subscription`
  uses the `getSubscription` of `src/mock-pubsub.ts:24-41` over the
  injected map.
- Topics.Topic.Subscription, MockPubSub.PubSub.Subscription: for a fresh
  placeholder they state only its name and invariant. `GetSubscription`
  states the rest.
- Responses are not modelled as arrays. The model returns the bare
  value. The TypeScript engine resolves to `[list]` (`getTopics`,
  `getSubscriptions`: src/mock-pubsub.ts:56,65, src/topic.ts:128) or to
  `[value, {}]` (`createTopic`, `createSubscription`:
  src/mock-pubsub.ts:77, src/topic.ts:61). The legacy `createTopic`
  resolves to `[topic]` (src/mock-pubsub.js:21), and
  `LegacyMockPubSub.LegacyPubSub.CreateTopic` returns the topic itself.
- The legacy engine stores `data` and `attributes` without looking inside
  them. They are `JsValues.JsValue`: primitives by value, objects by
  identity. NaN, the sign of zero, BigInt and Symbol values are not
  distinguished.
- The plain objects of `main.js` and `mock-pubsub.js` inherit keys such
  as `constructor` from `Object.prototype`. The model's maps hold only
  what was assigned.
- `initializeMocker` takes its entries in the order `Object.entries`
  lists them. That order is an input: the configuration is a sequence.
- `exports.topic(topicName)` returns a handle that only captures the
  name, so the lookup happens when `publish` runs.
  `LegacyMain.Mocker.Publish` takes the name and does that lookup.
- The legacy project id is modelled as a string or `undefined`. Other
  values are not modelled: numbers, or objects with their own string
  conversion.
- Behaviour kept as the source has it:
  - a name listed twice under a legacy topic receives two messages;
  - legacy `removeListener` and `removeAllListeners` ignore their event
    name, as `src/main.js:64-69` does;
  - `mock-pubsub.js` `getTopics` wraps its list in an outer array. The
    model returns the list itself.

## Findings

| source | as written | input that shows it | evidently intended | confidence | as-written member | corrected member |
|---|---|---|---|---|---|---|
| src/mock-pubsub.js:24-27 | `topic` takes any name starting with `projects`, slash or not, as a full name | `createTopic('projects-a')` registers `projects/<pid>/topics/projects-a`, then `topic('projects-a')` answers the placeholder | the guard `startsWith('projects/')`, under which every short name `createTopic` accepts is found again | low; not executed | LegacyMockPubSub.ProjectsNameNotFoundAfterCreate | LegacyMockPubSub.IntendedTopicAfterCreate |

`LegacyMockPubSub.LegacyPubSub.Topic` keeps the guard as written, because
callers of the double observe that behaviour. `LegacyMockPubSub.IntendedLookupName`
states the corrected lookup.
