/**
 * The result shaping of the admin client (`admin/client.rs`): how broker
 * metadata becomes the application's topics, how one topic's information is
 * selected, which configuration a new topic gets, and how a consumer group's
 * committed offsets are reported.
 *
 * Every broker call (metadata, describe-configs, create-topics, committed
 * offsets, group list) is an input here: its answer, or a function from the
 * request to the answer.  Broker errors are assumed already converted to
 * `Error`.
 */
module AdminClient {
  import opened Wrappers
  import opened Errors
  import opened Offsets

  /** A partition as the metadata describes it: its id and its in-sync and replica broker ids. */
  datatype PartitionMetadata = PartitionMetadata(id: int, isr: seq<int>, replicas: seq<int>)

  /** A topic as the metadata describes it. */
  datatype TopicMetadata = TopicMetadata(name: string, partitions: seq<PartitionMetadata>)

  /** `PartitionInfo`: a partition's id with the number of its in-sync replicas and of its replicas. */
  datatype PartitionInfo = PartitionInfo(id: int, isr: nat, replicas: nat)

  /** `Topic`: a name with its partitions. */
  datatype Topic = Topic(name: string, partitions: seq<PartitionInfo>)

  /** One configuration entry of a describe-configs answer. */
  datatype ConfigEntry = ConfigEntry(name: string, value: Option<string>)

  /** One resource of a describe-configs answer. */
  datatype ConfigResource = ConfigResource(entries: seq<ConfigEntry>)

  /** `TopicInfo`: a topic, its partitions and its configuration. */
  datatype TopicInfo = TopicInfo(name: string, partitions: seq<PartitionInfo>, configurations: map<string, Option<string>>)

  /** The replication of a new topic: a fixed replication factor. */
  datatype Replication = Fixed(factor: int)

  /** `NewTopic`: what the create-topics request asks for. */
  datatype NewTopic = NewTopic(name: string, numPartitions: int, config: seq<(string, string)>, replication: Replication)

  /** One group of a group-list answer. */
  datatype GroupListing = GroupListing(name: string, state: string)

  /** `ConsumerGroupInfo` as the admin client reports it: the group, its state and its committed offsets. */
  datatype GroupInfo = GroupInfo(name: string, state: string, offsets: seq<TopicPartitionOffset>)

  const TopicNotFound := "Topic not found"
  const CleanupPolicyKey := "cleanup.policy"

  /**
   * `map_offset`: the number reported for a committed offset.  A position is
   * reported as itself and the beginning as 0; every other kind (end,
   * stored, invalid, tail) as -1.
   */
  function MapOffset(o: Offset): (r: int)
    ensures o.At? ==> r == o.position
    ensures o.Beginning? ==> r == 0
    ensures !o.At? && !o.Beginning? ==> r == -1
  {
    match o
    case Beginning => 0
    case At(v) => v
    case _ => -1
  }

  /** A non-negative position is reported as its raw value, and a reported non-negative number is a position or the beginning. */
  lemma MapOffsetAgreesWithRaw(o: Offset)
    ensures o.At? && o.position >= 0 ==> Some(MapOffset(o)) == ToRaw(o)
    ensures MapOffset(o) >= 0 <==> o.Beginning? || (o.At? && o.position >= 0)
    ensures MapOffset(o) >= 1 ==> o == At(MapOffset(o))
  {
  }

  function PartitionInfoOf(m: PartitionMetadata): PartitionInfo
  {
    PartitionInfo(m.id, |m.isr|, |m.replicas|)
  }

  function TopicOf(t: TopicMetadata): Topic
  {
    Topic(t.name, seq(|t.partitions|, j requires 0 <= j < |t.partitions| => PartitionInfoOf(t.partitions[j])))
  }

  /**
   * `internal_list_topics`: one topic per metadata topic, in order; each
   * partition keeps its id and counts its in-sync replicas and replicas.
   */
  function ListTopics(metadata: Result<seq<TopicMetadata>, Error>): (r: Result<seq<Topic>, Error>)
    ensures r.Ok? <==> metadata.Ok?
    ensures r.Err? ==> r.error == metadata.error
    ensures r.Ok? ==> |r.value| == |metadata.value|
    ensures r.Ok? ==> forall i :: 0 <= i < |r.value| ==>
      && r.value[i].name == metadata.value[i].name
      && |r.value[i].partitions| == |metadata.value[i].partitions|
      && forall j :: 0 <= j < |r.value[i].partitions| ==>
           var m := metadata.value[i].partitions[j];
           r.value[i].partitions[j] == PartitionInfo(m.id, |m.isr|, |m.replicas|)
  {
    match metadata
    case Err(e) => Err(e)
    case Ok(topics) => Ok(seq(|topics|, i requires 0 <= i < |topics| => TopicOf(topics[i])))
  }

  /** The (topic, partition) pairs of a topic list, topic by topic and partition by partition. */
  function PartitionList(topics: seq<Topic>): seq<(string, int)>
  {
    if |topics| == 0 then []
    else
      var first := seq(|topics[0].partitions|, t requires 0 <= t < |topics[0].partitions| => (topics[0].name, topics[0].partitions[t].id));
      first + PartitionList(topics[1..])
  }

  /** The pairs of a topic list are exactly the (name, id) pairs of its topics' partitions. */
  lemma {:induction false} PartitionListMembers(topics: seq<Topic>, pair: (string, int))
    ensures pair in PartitionList(topics)
        <==> exists i, t :: 0 <= i < |topics| && 0 <= t < |topics[i].partitions| && pair == (topics[i].name, topics[i].partitions[t].id)
  {
    if |topics| > 0 {
      var first := seq(|topics[0].partitions|, t requires 0 <= t < |topics[0].partitions| => (topics[0].name, topics[0].partitions[t].id));
      var rest := PartitionList(topics[1..]);
      assert PartitionList(topics) == first + rest;
      PartitionListMembers(topics[1..], pair);
      if pair in first {
        var t :| 0 <= t < |first| && first[t] == pair;
        assert pair == (topics[0].name, topics[0].partitions[t].id);
      } else if pair in rest {
        var i, t :| 0 <= i < |topics[1..]| && 0 <= t < |topics[1..][i].partitions| && pair == (topics[1..][i].name, topics[1..][i].partitions[t].id);
        assert topics[1..][i] == topics[i + 1];
      }
      if exists i, t :: 0 <= i < |topics| && 0 <= t < |topics[i].partitions| && pair == (topics[i].name, topics[i].partitions[t].id) {
        var i, t :| 0 <= i < |topics| && 0 <= t < |topics[i].partitions| && pair == (topics[i].name, topics[i].partitions[t].id);
        if i == 0 {
          assert first[t] == pair;
        } else {
          assert topics[1..][i - 1] == topics[i];
        }
      }
    }
  }

  /**
   * The partitions `describe_consumer_group` asks about are exactly those of
   * the metadata: every partition of every topic, and nothing else.
   */
  lemma {:induction false} RequestedPartitions(metadata: seq<TopicMetadata>, topic: string, partition: int)
    ensures (topic, partition) in PartitionList(ListTopics(Ok(metadata)).value)
        <==> exists i, j :: 0 <= i < |metadata| && 0 <= j < |metadata[i].partitions|
                            && metadata[i].name == topic && metadata[i].partitions[j].id == partition
  {
    var topics := ListTopics(Ok(metadata)).value;
    var pairs := PartitionList(topics);
    PartitionListMembers(topics, (topic, partition));
    if (topic, partition) in pairs {
      var i, t :| 0 <= i < |topics| && 0 <= t < |topics[i].partitions| && (topic, partition) == (topics[i].name, topics[i].partitions[t].id);
      assert metadata[i].partitions[t].id == partition;
    }
    if exists i, j :: 0 <= i < |metadata| && 0 <= j < |metadata[i].partitions|
                      && metadata[i].name == topic && metadata[i].partitions[j].id == partition {
      var i, j :| 0 <= i < |metadata| && 0 <= j < |metadata[i].partitions|
                  && metadata[i].name == topic && metadata[i].partitions[j].id == partition;
      assert topics[i].partitions[j].id == partition;
    }
  }

  /** The names of the configuration entries. */
  function EntryNames(entries: seq<ConfigEntry>): set<string>
  {
    set i | 0 <= i < |entries| :: entries[i].name
  }

  /** Entry `i` is the last one with its name. */
  predicate LastNamed(entries: seq<ConfigEntry>, i: int)
    requires 0 <= i < |entries|
  {
    forall j :: i < j < |entries| ==> entries[j].name != entries[i].name
  }

  /** Adding one entry at the end: its name joins the keys and holds its value; earlier last entries keep theirs. */
  lemma ConfigMapStep(entries: seq<ConfigEntry>, prev: map<string, Option<string>>)
    requires |entries| > 0
    requires prev.Keys == EntryNames(entries[..|entries| - 1])
    requires forall i :: 0 <= i < |entries| - 1 && LastNamed(entries[..|entries| - 1], i)
                        ==> prev[entries[i].name] == entries[i].value
    ensures var last := entries[|entries| - 1];
      var m := prev[last.name := last.value];
      && m.Keys == EntryNames(entries)
      && forall i :: 0 <= i < |entries| && LastNamed(entries, i) ==> m[entries[i].name] == entries[i].value
  {
    var init, last := entries[..|entries| - 1], entries[|entries| - 1];
    EntryNamesSnoc(entries);
    var m := prev[last.name := last.value];
    forall i | 0 <= i < |entries| && LastNamed(entries, i) ensures m[entries[i].name] == entries[i].value {
      if i < |init| {
        LastNamedInit(entries, i);
      }
    }
  }

  /** The names of a non-empty entry list: those of all but the last entry, and the last one's. */
  lemma EntryNamesSnoc(entries: seq<ConfigEntry>)
    requires |entries| > 0
    ensures EntryNames(entries) == EntryNames(entries[..|entries| - 1]) + {entries[|entries| - 1].name}
  {
    var init, last := entries[..|entries| - 1], entries[|entries| - 1];
    forall n | n in EntryNames(entries) ensures n in EntryNames(init) + {last.name} {
      var i :| 0 <= i < |entries| && entries[i].name == n;
      if i < |init| {
        assert init[i].name == n;
      }
    }
    forall n | n in EntryNames(init) ensures n in EntryNames(entries) {
      var i :| 0 <= i < |init| && init[i].name == n;
      assert entries[i].name == n;
    }
  }

  /** An entry before the last that is last with its name in the whole list is last with it, and not the last entry's name. */
  lemma LastNamedInit(entries: seq<ConfigEntry>, i: int)
    requires 0 <= i < |entries| - 1 && LastNamed(entries, i)
    ensures LastNamed(entries[..|entries| - 1], i)
    ensures entries[i].name != entries[|entries| - 1].name
    ensures entries[..|entries| - 1][i] == entries[i]
  {
  }

  /** The configuration map built from describe-configs entries: each name with its value, a later entry replacing an earlier one. */
  function ConfigMap(entries: seq<ConfigEntry>): (m: map<string, Option<string>>)
    ensures m.Keys == EntryNames(entries)
    ensures forall i :: 0 <= i < |entries| && LastNamed(entries, i) ==> m[entries[i].name] == entries[i].value
  {
    if |entries| == 0 then map[]
    else
      var init := entries[..|entries| - 1];
      var last := entries[|entries| - 1];
      var prev := ConfigMap(init);
      ConfigMapStep(entries, prev);
      prev[last.name := last.value]
  }

  /** The configurations of `get_topic_info`: those of the first describe answer if it is a success, none otherwise. */
  function Configurations(responses: seq<Result<ConfigResource, string>>): map<string, Option<string>>
  {
    if |responses| > 0 && responses[0].Ok? then ConfigMap(responses[0].value.entries) else map[]
  }

  /**
   * `get_topic_info`: list the topic, describe its configuration, and answer
   * with the topic only if the listing holds exactly one topic.  A failed
   * listing or describe call is reported as such; otherwise a listing of
   * zero or several topics is "Topic not found".
   */
  function GetTopicInfo(metadata: Result<seq<TopicMetadata>, Error>, described: Result<seq<Result<ConfigResource, string>>, Error>)
    : (r: Result<TopicInfo, Error>)
    ensures r.Ok? <==> metadata.Ok? && described.Ok? && |metadata.value| == 1
    ensures metadata.Err? ==> r == Err(metadata.error)
    ensures metadata.Ok? && described.Err? ==> r == Err(described.error)
    ensures metadata.Ok? && described.Ok? && |metadata.value| != 1 ==> r == Err(Kafka(TopicNotFound))
    ensures r.Ok? ==> r.value.name == metadata.value[0].name && r.value.partitions == TopicOf(metadata.value[0]).partitions
  {
    match ListTopics(metadata)
    case Err(e) => Err(e)
    case Ok(topics) =>
      match described
      case Err(e) => Err(e)
      case Ok(responses) =>
        var configurations := Configurations(responses);
        if |topics| == 1 then Ok(TopicInfo(topics[0].name, topics[0].partitions, configurations))
        else Err(Kafka(TopicNotFound))
  }

  /**
   * The configurations of a topic are those of the first describe answer
   * when it succeeded, whatever the other answers; a failed first answer
   * gives none.
   */
  lemma TopicConfigurations(metadata: Result<seq<TopicMetadata>, Error>, responses: seq<Result<ConfigResource, string>>)
    requires GetTopicInfo(metadata, Ok(responses)).Ok?
    ensures |responses| > 0 && responses[0].Ok? ==>
      GetTopicInfo(metadata, Ok(responses)).value.configurations.Keys == set e | e in responses[0].value.entries :: e.name
    ensures |responses| == 0 || responses[0].Err? ==> GetTopicInfo(metadata, Ok(responses)).value.configurations == map[]
    ensures forall others: seq<Result<ConfigResource, string>> :: |others| > 0 && |responses| > 0 && others[0] == responses[0] ==>
      GetTopicInfo(metadata, Ok(others)) == GetTopicInfo(metadata, Ok(responses))
  {
    if |responses| > 0 && responses[0].Ok? {
      var entries := responses[0].value.entries;
      NamesOfMembers(entries);
    }
  }

  lemma NamesOfMembers(entries: seq<ConfigEntry>)
    ensures (set e | e in entries :: e.name) == EntryNames(entries)
  {
    forall e | e in entries ensures e.name in EntryNames(entries) {
      var i :| 0 <= i < |entries| && entries[i] == e;
    }
  }

  /** The value of `cleanup.policy` for a new topic. */
  function CleanupPolicy(compacted: bool): string
  {
    if compacted then "compact" else "delete"
  }

  /**
   * The `NewTopic` of `create_topic`: the requested name and partition count,
   * one configuration entry setting `cleanup.policy` to "compact" exactly
   * when the topic is compacted and to "delete" otherwise, and a fixed
   * replication factor equal to the requested in-sync replica count.
   */
  function NewTopicFor(name: string, numPartitions: int, isr: int, compacted: bool): (t: NewTopic)
    ensures t.name == name && t.numPartitions == numPartitions && t.replication == Fixed(isr)
    ensures |t.config| == 1 && t.config[0].0 == CleanupPolicyKey
    ensures t.config[0].1 == "compact" <==> compacted
    ensures t.config[0].1 == "delete" <==> !compacted
  {
    NewTopic(name, numPartitions, [(CleanupPolicyKey, CleanupPolicy(compacted))], Fixed(isr))
  }

  /** The error text of a failed topic creation: the topic and the error code. */
  function CreateFailure(err: (string, string)): string
  {
    "Unable to create the topic. " + err.0 + " " + err.1
  }

  /**
   * `create_topic`: send the new topic and read the first per-topic answer
   * (the source expects one).  Success is `Ok`, a per-topic error becomes a
   * Kafka error naming the topic and the code.
   */
  function CreateTopic(name: string, numPartitions: int, isr: int, compacted: bool,
                       createTopics: NewTopic -> Result<seq<Result<string, (string, string)>>, Error>)
    : (r: Result<(), Error>)
    requires createTopics(NewTopicFor(name, numPartitions, isr, compacted)).Ok? ==>
      |createTopics(NewTopicFor(name, numPartitions, isr, compacted)).value| >= 1
    ensures var answer := createTopics(NewTopicFor(name, numPartitions, isr, compacted));
      && (answer.Err? ==> r == Err(answer.error))
      && (answer.Ok? && answer.value[0].Ok? ==> r == Ok(()))
      && (answer.Ok? && answer.value[0].Err? ==> r == Err(Kafka(CreateFailure(answer.value[0].error))))
  {
    match createTopics(NewTopicFor(name, numPartitions, isr, compacted))
    case Err(e) => Err(e)
    case Ok(results) =>
      match results[0]
      case Ok(_) => Ok(())
      case Err(err) => Err(Kafka(CreateFailure(err)))
  }

  /** A reported committed offset: the element's topic and partition with its offset through `map_offset`. */
  function Reported(e: PartitionOffset): TopicPartitionOffset
  {
    TopicPartitionOffset(e.topic, e.partition, MapOffset(e.offset))
  }

  /**
   * The committed offsets a group reports: the elements whose offset is not
   * invalid, in order, each through `map_offset`.
   */
  function ReportedOffsets(elements: seq<PartitionOffset>): (r: seq<TopicPartitionOffset>)
    ensures |r| <= |elements|
    ensures forall i :: 0 <= i < |elements| && !elements[i].offset.Invalid? ==> Reported(elements[i]) in r
  {
    if |elements| == 0 then []
    else
      var rest := ReportedOffsets(elements[1..]);
      assert forall i :: 1 <= i < |elements| ==> elements[i] == elements[1..][i - 1];
      if elements[0].offset.Invalid? then rest
      else [Reported(elements[0])] + rest
  }

  /** One element is reported, through `map_offset`, unless its offset is invalid. */
  lemma ReportedOfOne(e: PartitionOffset)
    ensures ReportedOffsets([e]) == if e.offset.Invalid? then [] else [Reported(e)]
  {
    assert [e][1..] == [];
  }

  /**
   * Reporting a list is reporting its two halves and concatenating: the
   * elements keep their order and each is kept or dropped on its own.
   */
  lemma {:induction false} ReportedOffsetsAppend(a: seq<PartitionOffset>, b: seq<PartitionOffset>)
    ensures ReportedOffsets(a + b) == ReportedOffsets(a) + ReportedOffsets(b)
  {
    if |a| == 0 {
      assert a + b == b;
    } else {
      assert (a + b)[0] == a[0];
      assert (a + b)[1..] == a[1..] + b;
      ReportedOffsetsAppend(a[1..], b);
    }
  }

  /** Every reported offset comes from an element whose offset is not invalid. */
  lemma {:induction false} ReportedOnlyValid(elements: seq<PartitionOffset>, x: TopicPartitionOffset)
    requires x in ReportedOffsets(elements)
    ensures exists i :: 0 <= i < |elements| && !elements[i].offset.Invalid? && x == Reported(elements[i])
  {
    var rest := ReportedOffsets(elements[1..]);
    if x in rest {
      ReportedOnlyValid(elements[1..], x);
      var i :| 0 <= i < |elements[1..]| && !elements[1..][i].offset.Invalid? && x == Reported(elements[1..][i]);
      assert elements[1..][i] == elements[i + 1];
    } else {
      assert x == Reported(elements[0]);
    }
  }

  /** No reported offset is the invalid one's -1001, nor any other raw special value: each is -1 or at least 0. */
  lemma ReportedRange(elements: seq<PartitionOffset>)
    requires forall i :: 0 <= i < |elements| && elements[i].offset.At? ==> elements[i].offset.position >= 0
    ensures forall k :: 0 <= k < |ReportedOffsets(elements)| ==> ReportedOffsets(elements)[k].offset >= -1
  {
    var r := ReportedOffsets(elements);
    forall k | 0 <= k < |r| ensures r[k].offset >= -1 {
      ReportedOnlyValid(elements, r[k]);
    }
  }

  /**
   * `get_consumer_group_state`: the state of the one group the group list
   * returns (the source asserts there is exactly one).
   */
  function GroupState(groups: Result<seq<GroupListing>, Error>): (r: Result<string, Error>)
    requires groups.Ok? ==> |groups.value| == 1
    ensures r.Ok? <==> groups.Ok?
    ensures r.Err? ==> r.error == groups.error
    ensures r.Ok? ==> r.value == groups.value[0].state
  {
    match groups
    case Err(e) => Err(e)
    case Ok(gs) => Ok(gs[0].state)
  }

  /** `list_consumer_groups`: the names of every group the broker lists, in its order. */
  function ListConsumerGroups(groups: Result<seq<GroupListing>, Error>): (r: Result<seq<string>, Error>)
    ensures r.Ok? <==> groups.Ok?
    ensures r.Err? ==> r.error == groups.error
    ensures r.Ok? ==> |r.value| == |groups.value| && forall i :: 0 <= i < |groups.value| ==> r.value[i] == groups.value[i].name
  {
    match groups
    case Err(e) => Err(e)
    case Ok(gs) => Ok(seq(|gs|, i requires 0 <= i < |gs| => gs[i].name))
  }

  /** A group the broker lists for a single-group query is named in the full listing; its state is the one reported. */
  lemma ListedGroupState(all: seq<GroupListing>, g: GroupListing)
    requires g in all
    ensures ListConsumerGroups(Ok(all)).Ok? && g.name in ListConsumerGroups(Ok(all)).value
    ensures GroupState(Ok([g])) == Ok(g.state)
  {
    var i :| 0 <= i < |all| && all[i] == g;
    assert ListConsumerGroups(Ok(all)).value[i] == g.name;
  }

  /**
   * `describe_consumer_group`: list every topic, ask for the group's
   * committed offset of every (topic, partition) pair, report the valid
   * ones, and add the group's state.  A failed listing or state lookup is
   * reported as such; the committed-offsets call must succeed (the source
   * unwraps it).
   */
  function DescribeConsumerGroup(name: string, metadata: Result<seq<TopicMetadata>, Error>,
                                 committed: seq<(string, int)> -> Result<seq<PartitionOffset>, string>,
                                 groups: Result<seq<GroupListing>, Error>): (r: Result<GroupInfo, Error>)
    requires metadata.Ok? ==> committed(PartitionList(ListTopics(metadata).value)).Ok?
    requires metadata.Ok? && groups.Ok? ==> |groups.value| == 1
    ensures r.Ok? <==> metadata.Ok? && groups.Ok?
    ensures metadata.Err? ==> r == Err(metadata.error)
    ensures metadata.Ok? && groups.Err? ==> r == Err(groups.error)
    ensures r.Ok? ==> r.value.name == name && r.value.state == groups.value[0].state
    ensures r.Ok? ==> r.value.offsets == ReportedOffsets(committed(PartitionList(ListTopics(metadata).value)).value)
  {
    match ListTopics(metadata)
    case Err(e) => Err(e)
    case Ok(topics) =>
      var offsets := ReportedOffsets(committed(PartitionList(topics)).value);
      match GroupState(groups)
      case Err(e) => Err(e)
      case Ok(state) => Ok(GroupInfo(name, state, offsets))
  }
}
