/** The `PubSub` client of the TypeScript engine: a project id over the two
    process-wide registries, which every client shares (here, the same two
    `JsMap` objects handed to each client). */
module MockPubSub {
  import opened Wrappers
  import opened JsMaps
  import opened Utils
  import opened Subscriptions
  import opened Topics

  const DEFAULT_PROJECT_ID: string := "{{projectId}}"

  /** `values.filter((v) => nameOf(v).startsWith(prefix))`. */
  function FilterByPrefix<V>(values: seq<V>, nameOf: V -> string, prefix: string): (r: seq<V>)
    ensures |r| <= |values|
    ensures forall v :: v in r ==> v in values
  {
    if values == [] then []
    else (if StartsWith(nameOf(values[0]), prefix) then [values[0]] else []) + FilterByPrefix(values[1..], nameOf, prefix)
  }

  /** The filter keeps exactly the values whose name has the prefix. */
  lemma {:induction false} FilterByPrefixMembers<V>(values: seq<V>, nameOf: V -> string, prefix: string, v: V)
    ensures v in FilterByPrefix(values, nameOf, prefix) <==> v in values && StartsWith(nameOf(v), prefix)
  {
    if values != [] {
      FilterByPrefixMembers(values[1..], nameOf, prefix, v);
      assert values == [values[0]] + values[1..];
    }
  }

  /** The filter keeps order: filtering a concatenation concatenates the
      filtered parts. */
  lemma {:induction false} FilterByPrefixAppend<V>(a: seq<V>, b: seq<V>, nameOf: V -> string, prefix: string)
    ensures FilterByPrefix(a + b, nameOf, prefix) == FilterByPrefix(a, nameOf, prefix) + FilterByPrefix(b, nameOf, prefix)
  {
    if a != [] {
      assert (a + b)[1..] == a[1..] + b;
      FilterByPrefixAppend(a[1..], b, nameOf, prefix);
    } else {
      assert a + b == b;
    }
  }

  /** `Array.from(map.values())` holds the same values as the map. */
  lemma ValuesMembers<V>(es: seq<Entry<V>>, v: V)
    ensures v in Values(es) <==> v in ValueSet(es)
  {
    if v in ValueSet(es) {
      var i :| 0 <= i < |es| && es[i].value == v;
      assert Values(es)[i] == v;
    }
  }

  class PubSub {
    const projectId: string
    const topics: JsMap<Topic>
    const subscriptions: JsMap<Subscription>

    /** `new PubSub({ projectId })`, the id defaulting to `'{{projectId}}'`. */
    constructor(projectId: Option<string>, topics: JsMap<Topic>, subscriptions: JsMap<Subscription>)
      ensures projectId.Some? ==> this.projectId == projectId.value
      ensures projectId.None? ==> this.projectId == DEFAULT_PROJECT_ID
      ensures this.topics == topics && this.subscriptions == subscriptions
    {
      this.projectId := projectId.GetOr(DEFAULT_PROJECT_ID);
      this.topics := topics;
      this.subscriptions := subscriptions;
    }

    function ProjectPrefix(): string {
      PROJECTS_PREFIX + projectId + "/"
    }

    /** `getTopics()`: the registered topics of this project, in insertion order. */
    function GetTopics(): (r: seq<Topic>)
      reads topics
      ensures forall k :: 0 <= k < |r| ==> r[k] in ValueSet(topics.entries) && StartsWith(r[k].name, ProjectPrefix())
      ensures forall i :: 0 <= i < |topics.entries| && StartsWith(topics.entries[i].value.name, ProjectPrefix()) ==>
                topics.entries[i].value in r
    {
      var r := FilterByPrefix(Values(topics.entries), (t: Topic) => t.name, ProjectPrefix());
      forall k | 0 <= k < |r| ensures r[k] in ValueSet(topics.entries) && StartsWith(r[k].name, ProjectPrefix()) {
        FilterByPrefixMembers(Values(topics.entries), (t: Topic) => t.name, ProjectPrefix(), r[k]);
        ValuesMembers(topics.entries, r[k]);
      }
      forall i | 0 <= i < |topics.entries| && StartsWith(topics.entries[i].value.name, ProjectPrefix())
        ensures topics.entries[i].value in r
      {
        FilterByPrefixMembers(Values(topics.entries), (t: Topic) => t.name, ProjectPrefix(), topics.entries[i].value);
        ValuesMembers(topics.entries, topics.entries[i].value);
      }
      r
    }

    /** `getSubscriptions()`: the registered subscriptions of this project, in
        insertion order. */
    function GetSubscriptions(): (r: seq<Subscription>)
      reads subscriptions
      ensures forall k :: 0 <= k < |r| ==> r[k] in ValueSet(subscriptions.entries) && StartsWith(r[k].name, ProjectPrefix())
      ensures forall i :: 0 <= i < |subscriptions.entries| && StartsWith(subscriptions.entries[i].value.name, ProjectPrefix()) ==>
                subscriptions.entries[i].value in r
    {
      var r := FilterByPrefix(Values(subscriptions.entries), (s: Subscription) => s.name, ProjectPrefix());
      forall k | 0 <= k < |r| ensures r[k] in ValueSet(subscriptions.entries) && StartsWith(r[k].name, ProjectPrefix()) {
        FilterByPrefixMembers(Values(subscriptions.entries), (s: Subscription) => s.name, ProjectPrefix(), r[k]);
        ValuesMembers(subscriptions.entries, r[k]);
      }
      forall i | 0 <= i < |subscriptions.entries| && StartsWith(subscriptions.entries[i].value.name, ProjectPrefix())
        ensures subscriptions.entries[i].value in r
      {
        FilterByPrefixMembers(Values(subscriptions.entries), (s: Subscription) => s.name, ProjectPrefix(), subscriptions.entries[i].value);
        ValuesMembers(subscriptions.entries, subscriptions.entries[i].value);
      }
      r
    }

    /** `createTopic(topicName)`: code 3 for a malformed name, code 6 when the
        canonical name is registered; otherwise a new topic with no bound
        subscriptions is registered at the end of the insertion order. */
    method CreateTopic(topicName: string) returns (r: Result<Topic, LibError>)
      requires topics.Valid()
      modifies topics
      ensures topics.Valid()
      ensures MakeTopicName(projectId, topicName).Err? ==>
                r == Err(MakeTopicName(projectId, topicName).error) && topics.entries == old(topics.entries)
      ensures MakeTopicName(projectId, topicName).Ok? ==>
                var n := MakeTopicName(projectId, topicName).value;
                if HasKey(old(topics.entries), n) then
                  && r == Err(MakeLibError(ALREADY_EXISTS, "ALREADY_EXISTS: Topic already exists"))
                  && topics.entries == old(topics.entries)
                else
                  && r.Ok? && fresh(r.value)
                  && r.value.name == n && r.value.projectId == projectId
                  && r.value.topics == topics && r.value.subscriptions == subscriptions
                  && r.value.subscriptionNames == []
                  && topics.entries == old(topics.entries) + [Entry(n, r.value)]
    {
      var canonical := MakeTopicName(projectId, topicName);
      if canonical.Err? {
        return Err(canonical.error);
      }
      var n := canonical.value;
      if topics.Has(n) {
        return Err(MakeLibError(ALREADY_EXISTS, "ALREADY_EXISTS: Topic already exists"));
      }
      var topic := new Topic(projectId, n, topics, subscriptions);
      PutAbsent(topics.entries, n, topic);
      topics.Set(n, topic);
      r := Ok(topic);
    }

    /** `topic(topicName)`: the registered topic under the canonical name, or an
        unregistered placeholder; the registry is not touched. */
    method Topic(topicName: string) returns (r: Result<Topic, LibError>)
      requires topics.Valid()
      ensures MakeTopicName(projectId, topicName).Err? ==> r == Err(MakeTopicName(projectId, topicName).error)
      ensures MakeTopicName(projectId, topicName).Ok? ==>
                var n := MakeTopicName(projectId, topicName).value;
                && r.Ok?
                && (HasKey(topics.entries, n) ==> Find(topics.entries, n) == Some(r.value))
                && (!HasKey(topics.entries, n) ==>
                      && fresh(r.value) && r.value.name == n && r.value.projectId == projectId
                      && r.value.topics == topics && r.value.subscriptions == subscriptions
                      && r.value.subscriptionNames == [])
    {
      var canonical := MakeTopicName(projectId, topicName);
      if canonical.Err? {
        return Err(canonical.error);
      }
      var n := canonical.value;
      var found := topics.Get(n);
      if found.Some? {
        return Ok(found.value);
      }
      var placeholder := new Topic(projectId, n, topics, subscriptions);
      r := Ok(placeholder);
    }

    /** `subscription(subscriptionName)`: see `GetSubscription`. */
    method Subscription(subscriptionName: string) returns (r: Result<Subscription, LibError>)
      requires subscriptions.Valid()
      ensures MakeSubscriptionName(projectId, subscriptionName).Err? ==>
                r == Err(MakeSubscriptionName(projectId, subscriptionName).error)
      ensures MakeSubscriptionName(projectId, subscriptionName).Ok? ==>
                var n := MakeSubscriptionName(projectId, subscriptionName).value;
                && r.Ok?
                && (HasKey(subscriptions.entries, n) ==> Find(subscriptions.entries, n) == Some(r.value))
                && (!HasKey(subscriptions.entries, n) ==> fresh(r.value) && r.value.name == n && r.value.Valid())
    {
      r := GetSubscription(projectId, subscriptionName, subscriptions);
    }
  }
}
