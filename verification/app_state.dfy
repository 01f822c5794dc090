/**
 * The application state (`AppState`): the clusters opened so far, by id,
 * created lazily by `get_cluster_by_id` from the stored configuration and
 * afterwards always handed back unchanged.
 *
 * Reading the configuration file is an input here; the mutex around the map
 * is left out, each call being one atomic step.
 */
module AppStates {
  import opened Wrappers
  import opened Configuration
  import opened Clusters

  datatype AppState = AppState(clusters: map<string, Cluster>)

  /** Every cluster is stored under its own configuration's id and keeps its consumers well formed. */
  predicate StateWf(state: AppState)
  {
    forall id :: id in state.clusters ==> state.clusters[id].config.id == id && ClusterWf(state.clusters[id])
  }

  /** The configuration of cluster `id`: the first one carrying that id, if any. */
  function FindConfig(configs: seq<ClusterConfig>, id: string): (r: Option<ClusterConfig>)
    ensures r.None? <==> forall i :: 0 <= i < |configs| ==> configs[i].id != id
    ensures r.Some? ==> r.value.id == id
    ensures r.Some? ==> r.value in configs
    ensures forall i :: 0 <= i < |configs| && configs[i].id == id && (forall j :: 0 <= j < i ==> configs[j].id != id)
                        ==> r == Some(configs[i])
  {
    if |configs| == 0 then None
    else if configs[0].id == id then Some(configs[0])
    else
      var r := FindConfig(configs[1..], id);
      assert forall i :: 1 <= i < |configs| ==> configs[i] == configs[1..][i - 1];
      r
  }

  /**
   * `get_cluster_by_id`: the cluster with id `id`, built from its
   * configuration and inserted first if absent.  The configuration is read
   * only then: reading it must succeed and must hold the id, or the source
   * panics.
   */
  function GetClusterById(state: AppState, id: string, configs: Result<seq<ClusterConfig>, string>): (r: (AppState, Cluster))
    requires id in state.clusters || (configs.Ok? && FindConfig(configs.value, id).Some?)
    ensures id in r.0.clusters && r.1 == r.0.clusters[id]
    ensures id in state.clusters ==> r.0 == state
    ensures id !in state.clusters ==> r.0.clusters.Keys == state.clusters.Keys + {id}
    ensures id !in state.clusters ==> r.1.config.id == id && r.1 == NewCluster(r.1.config)
    ensures id !in state.clusters ==> r.1.config in configs.value
    ensures forall other :: other in state.clusters ==> other in r.0.clusters && r.0.clusters[other] == state.clusters[other]
  {
    if id in state.clusters then (state, state.clusters[id])
    else
      var cluster := NewCluster(FindConfig(configs.value, id).value);
      var clusters := state.clusters[id := cluster];
      (AppState(clusters), clusters[id])
  }

  /** A second lookup of the same id finds the cluster the first one stored and changes nothing. */
  lemma GetClusterIdempotent(state: AppState, id: string, configs: Result<seq<ClusterConfig>, string>,
                             configs2: Result<seq<ClusterConfig>, string>)
    requires id in state.clusters || (configs.Ok? && FindConfig(configs.value, id).Some?)
    ensures GetClusterById(GetClusterById(state, id, configs).0, id, configs2) == GetClusterById(state, id, configs)
  {
  }

  /** Once a cluster is open the configuration is not consulted: any configuration, even a failed read, gives the same. */
  lemma OpenClusterIgnoresConfig(state: AppState, id: string, configs: Result<seq<ClusterConfig>, string>,
                                 configs2: Result<seq<ClusterConfig>, string>)
    requires id in state.clusters
    ensures GetClusterById(state, id, configs) == GetClusterById(state, id, configs2)
  {
  }

  /** Opening a cluster keeps every cluster under its own id with well-formed consumers; a new one starts with none. */
  lemma GetClusterKeepsWf(state: AppState, id: string, configs: Result<seq<ClusterConfig>, string>)
    requires StateWf(state)
    requires id in state.clusters || (configs.Ok? && FindConfig(configs.value, id).Some?)
    ensures StateWf(GetClusterById(state, id, configs).0)
    ensures id !in state.clusters ==> GetClusterById(state, id, configs).1.consumers == map[]
  {
  }

  /**
   * A consumer asked for through the state: the cluster is looked up (and
   * opened if needed), its consumer for `topic` is looked up (and created if
   * needed), and the cluster stored under `id` is the updated one, as the
   * shared consumer map of every clone of the handle sees it.
   */
  function ConsumerFor(state: AppState, id: string, topic: string, configs: Result<seq<ClusterConfig>, string>)
    : (r: (AppState, Consumer))
    requires id in state.clusters || (configs.Ok? && FindConfig(configs.value, id).Some?)
    ensures id in r.0.clusters && topic in r.0.clusters[id].consumers && r.1 == r.0.clusters[id].consumers[topic]
    ensures r.0.clusters.Keys == state.clusters.Keys + {id}
    ensures forall other :: other in state.clusters && other != id ==> r.0.clusters[other] == state.clusters[other]
  {
    var (found, cluster) := GetClusterById(state, id, configs);
    var (updated, consumer) := GetConsumer(cluster, topic);
    (AppState(found.clusters[id := updated]), consumer)
  }

  /**
   * Through the state, every consumer handed out belongs to the cluster it
   * was asked of and to the topic it was asked for, and the state stays well
   * formed.
   */
  lemma ConsumerForKeepsWf(state: AppState, id: string, topic: string, configs: Result<seq<ClusterConfig>, string>)
    requires StateWf(state)
    requires id in state.clusters || (configs.Ok? && FindConfig(configs.value, id).Some?)
    ensures StateWf(ConsumerFor(state, id, topic, configs).0)
    ensures ConsumerFor(state, id, topic, configs).1 == Consumer(ConsumerFor(state, id, topic, configs).0.clusters[id].config, topic)
    ensures ConsumerFor(state, id, topic, configs).1.config.id == id
  {
    var (found, cluster) := GetClusterById(state, id, configs);
    GetClusterKeepsWf(state, id, configs);
    GetConsumerKeepsWf(cluster, topic);
  }
}
