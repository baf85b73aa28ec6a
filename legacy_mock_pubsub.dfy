/** The legacy `MockPubSub` class: a module-level registry of topic objects
    keyed by full name, shared by every instance. Names are built without any
    validation, `getTopics` lists every topic of every project, and a lookup
    of an unknown name yields a placeholder whose `delete` fails with code 5.
    Every key starts with `projects`, so the registry enumerates in insertion
    order, as a `Map` does. */
module LegacyMockPubSub {
  import opened Wrappers
  import opened JsMaps
  import opened Utils

  /** `${projectId}` for a project id that is a string or `undefined`. */
  function ProjectIdText(projectId: Option<string>): string {
    projectId.GetOr("undefined")
  }

  /** `projects/${projectId}/topics/${topicName}`. */
  function FullTopicName(projectId: Option<string>, topicName: string): (name: string)
    ensures StartsWith(name, PROJECTS_PREFIX)
    ensures |name| == |PROJECTS_PREFIX| + |ProjectIdText(projectId)| + |"/topics/"| + |topicName|
    ensures name[|name| - |topicName|..] == topicName
  {
    var name := PROJECTS_PREFIX + ProjectIdText(projectId) + "/topics/" + topicName;
    assert name[..|PROJECTS_PREFIX|] == PROJECTS_PREFIX;
    name
  }

  /** Within one project, distinct short names give distinct full names. */
  lemma FullTopicNameInjective(projectId: Option<string>, a: string, b: string)
    requires FullTopicName(projectId, a) == FullTopicName(projectId, b)
    ensures a == b
  {
    var na, nb := FullTopicName(projectId, a), FullTopicName(projectId, b);
    assert |a| == |b|;
    assert a == na[|na| - |a|..] == nb[|nb| - |b|..] == b;
  }

  /** The code-6 error of `createTopic` on a name already registered. */
  function AlreadyExists(): LibError {
    MakeLibError(6, "ALREADY_EXISTS: Topic already exists")
  }

  /** The code-5 error of the placeholder's `delete`. */
  function TopicNotFound(): LibError {
    MakeLibError(5, "NOT_FOUND: Topic not found")
  }

  lemma ErrorCodes()
    ensures AlreadyExists().code == 6 && TopicNotFound().code == 5
    ensures SplitErrorMessage(AlreadyExists().message) == Some((6, "ALREADY_EXISTS: Topic already exists"))
    ensures SplitErrorMessage(TopicNotFound().message) == Some((5, "NOT_FOUND: Topic not found"))
  {
    LibErrorMessageRoundTrip(6, "ALREADY_EXISTS: Topic already exists");
    LibErrorMessageRoundTrip(5, "NOT_FOUND: Topic not found");
  }

  /** A topic object made by `createTopic(name)`: its name, and a `delete`
      that removes that name from the registry. */
  class LegacyTopic {
    const name: string
    const registry: JsMap<LegacyTopic>

    constructor(name: string, registry: JsMap<LegacyTopic>)
      ensures this.name == name && this.registry == registry
    {
      this.name := name;
      this.registry := registry;
    }

    /** `delete()`: removes the entry under this topic's name, whether or not
        it is still there; it never fails. */
    method Delete()
      requires Consistent(registry)
      modifies registry
      ensures Consistent(registry)
      ensures registry.entries == Without(old(registry.entries), name)
    {
      ConsistentWithout(registry, registry.entries, name);
      var existed := registry.Delete(name);
    }
  }

  /** What `topic(name)` returns: a registered topic, or `nonExisitingTopic`. */
  datatype TopicHandle = Named(topic: LegacyTopic) | NonExisting

  /** `delete()` on a handle: a registered topic removes its entry; the
      placeholder fails with code 5 and changes nothing. */
  method DeleteTopic(handle: TopicHandle) returns (r: Outcome<LibError>)
    requires handle.Named? ==> Consistent(handle.topic.registry)
    modifies if handle.Named? then {handle.topic.registry} else {}
    ensures handle.Named? ==> Consistent(handle.topic.registry)
    ensures handle.Named? ==>
              r == Pass && handle.topic.registry.entries == Without(old(handle.topic.registry.entries), handle.topic.name)
    ensures handle.NonExisting? ==> r == Fail(TopicNotFound())
  {
    match handle
    case Named(topic) =>
      topic.Delete();
      r := Pass;
    case NonExisting =>
      r := Fail(TopicNotFound());
  }

  /** Every entry of the registry holds a topic made under that entry's name
      and bound to that registry. */
  ghost predicate Consistent(registry: JsMap<LegacyTopic>)
    reads registry
  {
    && registry.Valid()
    && forall i :: 0 <= i < |registry.entries| ==>
         registry.entries[i].value.name == registry.entries[i].key && registry.entries[i].value.registry == registry
  }

  /** Removing an entry keeps the registry consistent. */
  lemma ConsistentWithout(registry: JsMap<LegacyTopic>, es: seq<Entry<LegacyTopic>>, k: string)
    requires forall i :: 0 <= i < |es| ==> es[i].value.name == es[i].key && es[i].value.registry == registry
    ensures forall i :: 0 <= i < |Without(es, k)| ==>
              Without(es, k)[i].value.name == Without(es, k)[i].key && Without(es, k)[i].value.registry == registry
  {
    WithoutIsSubsequence(es, k);
    var w := Without(es, k);
    forall i | 0 <= i < |w| ensures w[i].value.name == w[i].key && w[i].value.registry == registry {
      assert w[i] in es;
    }
  }

  /** The name `topic(topicName)` looks up: kept as is when it starts with
      `projects` (slash or no slash), otherwise placed under the project.
      Either way it starts with `projects`. */
  function LookupName(projectId: Option<string>, topicName: string): (name: string)
    ensures StartsWith(name, "projects")
  {
    if StartsWith(topicName, "projects") then topicName
    else
      var full := FullTopicName(projectId, topicName);
      assert full[..|"projects"|] == PROJECTS_PREFIX[..|"projects"|];
      full
  }

  class LegacyPubSub {
    const projectId: Option<string>
    /** The module-level `topics` object. */
    const topics: JsMap<LegacyTopic>

    /** `new MockPubSub({ projectId })`: the project id is kept as given. */
    constructor(projectId: Option<string>, topics: JsMap<LegacyTopic>)
      ensures this.projectId == projectId && this.topics == topics
    {
      this.projectId := projectId;
      this.topics := topics;
    }

    /** `getTopics()`: every registered topic, of every project, in
        registration order. */
    function GetTopics(): (r: seq<LegacyTopic>)
      reads topics
      ensures |r| == |topics.entries|
      ensures forall i :: 0 <= i < |r| ==> r[i] == topics.entries[i].value
    {
      Values(topics.entries)
    }

    /** `topic(topicName)`: the registered topic, or the placeholder. */
    function Topic(topicName: string): (h: TopicHandle)
      reads topics
      ensures h.Named? <==> HasKey(topics.entries, LookupName(projectId, topicName))
      ensures h.Named? ==> Find(topics.entries, LookupName(projectId, topicName)) == Some(h.topic)
    {
      match Find(topics.entries, LookupName(projectId, topicName))
      case Some(t) => Named(t)
      case None => NonExisting
    }

    /** `createTopic(topicName)`: the short name is placed under this project
        with no validation; code 6 when that name is registered, otherwise a
        new topic registered last. */
    method CreateTopic(topicName: string) returns (r: Result<LegacyTopic, LibError>)
      requires Consistent(topics)
      modifies topics
      ensures Consistent(topics)
      ensures HasKey(old(topics.entries), FullTopicName(projectId, topicName)) ==>
                r == Err(AlreadyExists()) && topics.entries == old(topics.entries)
      ensures !HasKey(old(topics.entries), FullTopicName(projectId, topicName)) ==>
                && r.Ok? && fresh(r.value)
                && r.value.name == FullTopicName(projectId, topicName) && r.value.registry == topics
                && topics.entries == old(topics.entries) + [Entry(FullTopicName(projectId, topicName), r.value)]
      ensures !HasKey(old(topics.entries), FullTopicName(projectId, topicName)) && !StartsWith(topicName, "projects") ==>
                Topic(topicName) == Named(r.value)
    {
      var name := FullTopicName(projectId, topicName);
      if topics.Has(name) {
        return Err(AlreadyExists());
      }
      var topic := new LegacyTopic(name, topics);
      PutAbsent(topics.entries, name, topic);
      topics.Set(name, topic);
      r := Ok(topic);
      if !StartsWith(topicName, "projects") {
        TopicAfterCreate(old(topics.entries), projectId, topicName, topic);
      }
    }
  }

  /** A topic just created under a short name not starting with `projects` is
      what `topic` then answers for that short name. */
  lemma TopicAfterCreate(es: seq<Entry<LegacyTopic>>, projectId: Option<string>, topicName: string, t: LegacyTopic)
    requires !StartsWith(topicName, "projects")
    requires !HasKey(es, FullTopicName(projectId, topicName))
    ensures Find(es + [Entry(FullTopicName(projectId, topicName), t)], LookupName(projectId, topicName)) == Some(t)
  {
    var name := FullTopicName(projectId, topicName);
    PutAbsent(es, name, t);
    FindPut(es, name, t, name);
  }

  /** A short name that starts with `projects` but not with `projects/`, such
      as `projects-a`, is registered under its full name by `createTopic`, yet
      `topic` looks it up unchanged and answers the placeholder. */
  lemma ProjectsNameNotFoundAfterCreate(projectId: Option<string>, t: LegacyTopic)
    ensures Find([Entry(FullTopicName(projectId, "projects-a"), t)], LookupName(projectId, "projects-a")) == None
  {
    var full := FullTopicName(projectId, "projects-a");
    assert LookupName(projectId, "projects-a") == "projects-a";
    assert full[8] == '/' && "projects-a"[8] == '-';
    assert !HasKey([Entry(full, t)], "projects-a");
  }

  /** The lookup name with the guard `createTopic`'s names call for: only a
      name under `projects/` is taken as a full name. */
  function IntendedLookupName(projectId: Option<string>, topicName: string): (name: string)
    ensures StartsWith(name, PROJECTS_PREFIX)
  {
    if StartsWith(topicName, PROJECTS_PREFIX) then topicName else FullTopicName(projectId, topicName)
  }

  /** With that guard, every short name `createTopic` accepts is found again,
      `projects-a` included. */
  lemma IntendedTopicAfterCreate(es: seq<Entry<LegacyTopic>>, projectId: Option<string>, topicName: string, t: LegacyTopic)
    requires !StartsWith(topicName, PROJECTS_PREFIX)
    requires !HasKey(es, FullTopicName(projectId, topicName))
    ensures Find(es + [Entry(FullTopicName(projectId, topicName), t)], IntendedLookupName(projectId, topicName)) == Some(t)
  {
    var name := FullTopicName(projectId, topicName);
    PutAbsent(es, name, t);
    FindPut(es, name, t, name);
  }

  /** After a registered topic's `delete`, `topic` answers the placeholder for
      its name, and the old answer for every other name. */
  lemma TopicAfterDelete(es: seq<Entry<LegacyTopic>>, name: string, q: string)
    ensures !HasKey(Without(es, name), name)
    ensures q != name ==> Find(Without(es, name), q) == Find(es, q)
  {
    FindWithout(es, name, q);
    FindWithout(es, name, name);
  }
}
