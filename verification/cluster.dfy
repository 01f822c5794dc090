/**
 * A cluster handle (`Cluster`): its configuration, the schema-registry client
 * it was wired with, and the registry of per-topic consumers, created lazily
 * by `get_consumer` and afterwards always handed back unchanged.
 *
 * The consumers map sits behind a mutex shared by every clone of the handle;
 * here each operation is one atomic step on an immutable value, and sharing is
 * the caller passing the updated cluster on.
 */
module Clusters {
  import opened Wrappers
  import opened Configuration

  /** A schema-registry client: the endpoint and credentials it was built with. */
  datatype RegistryClient = RegistryClient(endpoint: string, username: Option<string>, password: Option<string>)

  /** The consumer `KafkaConsumer::new` builds for one topic of a cluster. */
  datatype Consumer = Consumer(config: ClusterConfig, topic: string)

  /**
   * A cluster: its configuration, its registry client, the registry client
   * handed to its record parser, and its consumers by topic name.
   */
  datatype Cluster = Cluster(
    config: ClusterConfig,
    registryClient: Option<RegistryClient>,
    parserRegistry: Option<RegistryClient>,
    consumers: map<string, Consumer>)

  /** Every consumer of the cluster was built from the cluster's configuration for the topic it is stored under. */
  predicate ClusterWf(c: Cluster)
  {
    forall t :: t in c.consumers ==> c.consumers[t] == Consumer(c.config, t)
  }

  /**
   * `Cluster::new`: a registry client exactly when the configuration has a
   * schema-registry section, built from that section and shared with the
   * parser; no consumer yet.
   */
  function NewCluster(config: ClusterConfig): (c: Cluster)
    ensures c.config == config && c.consumers == map[]
    ensures c.registryClient.Some? <==> config.schemaRegistry.Some?
    ensures config.schemaRegistry.Some? ==>
      var s := config.schemaRegistry.value;
      c.registryClient == Some(RegistryClient(s.endpoint, s.username, s.password))
    ensures c.parserRegistry == c.registryClient
    ensures ClusterWf(c)
  {
    var client :=
      match config.schemaRegistry
      case None => None
      case Some(s) => Some(RegistryClient(s.endpoint, s.username, s.password));
    Cluster(config, client, client, map[])
  }

  /**
   * `get_consumer`: the consumer of `topic`, created and inserted first if
   * the cluster has none.  Afterwards the topic has a consumer and the one
   * returned is the stored one; an existing consumer leaves the cluster as it
   * was; otherwise exactly one entry, for `topic`, is added and every other
   * entry is kept.
   */
  function GetConsumer(c: Cluster, topic: string): (r: (Cluster, Consumer))
    ensures topic in r.0.consumers && r.1 == r.0.consumers[topic]
    ensures topic in c.consumers ==> r.0 == c
    ensures topic !in c.consumers ==> r.0.consumers.Keys == c.consumers.Keys + {topic}
    ensures topic !in c.consumers ==> r.1 == Consumer(c.config, topic)
    ensures forall t :: t in c.consumers ==> t in r.0.consumers && r.0.consumers[t] == c.consumers[t]
    ensures r.0.config == c.config && r.0.registryClient == c.registryClient && r.0.parserRegistry == c.parserRegistry
  {
    var consumers :=
      if topic in c.consumers then c.consumers
      else c.consumers[topic := Consumer(c.config, topic)];
    (c.(consumers := consumers), consumers[topic])
  }

  /** Asking twice for the same topic gives the same consumer and changes nothing the second time. */
  lemma GetConsumerIdempotent(c: Cluster, topic: string)
    ensures GetConsumer(GetConsumer(c, topic).0, topic) == GetConsumer(c, topic)
  {
  }

  /** `get_consumer` keeps every consumer built for its own topic, and always returns the consumer of the topic asked for. */
  lemma GetConsumerKeepsWf(c: Cluster, topic: string)
    requires ClusterWf(c)
    ensures ClusterWf(GetConsumer(c, topic).0)
    ensures GetConsumer(c, topic).1 == Consumer(c.config, topic)
  {
  }

  /** Asking for the consumers of several topics in order. */
  function GetConsumers(c: Cluster, topics: seq<string>): (r: Cluster)
    ensures r.consumers.Keys == c.consumers.Keys + set i | 0 <= i < |topics| :: topics[i]
    ensures forall t :: t in c.consumers ==> r.consumers[t] == c.consumers[t]
    ensures r.config == c.config && r.registryClient == c.registryClient && r.parserRegistry == c.parserRegistry
    ensures ClusterWf(c) ==> ClusterWf(r)
    decreases |topics|
  {
    if |topics| == 0 then c
    else
      var next := GetConsumer(c, topics[0]).0;
      var r := GetConsumers(next, topics[1..]);
      assert forall i :: 1 <= i < |topics| ==> topics[i] == topics[1..][i - 1];
      r
  }

  /** Two well-formed clusters that agree on everything but their consumers, and on the topics, are equal. */
  lemma {:induction false} WfDetermined(c1: Cluster, c2: Cluster)
    requires ClusterWf(c1) && ClusterWf(c2)
    requires c1.config == c2.config && c1.registryClient == c2.registryClient && c1.parserRegistry == c2.parserRegistry
    requires c1.consumers.Keys == c2.consumers.Keys
    ensures c1 == c2
  {
    assert c1.consumers == c2.consumers;
  }

  /**
   * Starting from a well-formed cluster (a new one, say), the consumers
   * depend only on which topics were asked for, not on the order or on
   * repetitions: at most one consumer per topic.
   */
  lemma OrderIrrelevant(c: Cluster, topics1: seq<string>, topics2: seq<string>)
    requires ClusterWf(c)
    requires (set i | 0 <= i < |topics1| :: topics1[i]) == (set i | 0 <= i < |topics2| :: topics2[i])
    ensures GetConsumers(c, topics1) == GetConsumers(c, topics2)
  {
    WfDetermined(GetConsumers(c, topics1), GetConsumers(c, topics2));
  }
}
