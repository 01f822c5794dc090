/**
 * The consumer-group administration (`admin/consumer_admin.rs`): deleting a
 * group, committing a group's position at the offsets a consumer was
 * assigned, and describing a group by its committed offsets.
 *
 * Broker answers are inputs; the consumer set-up and the commit are
 * functions from the request to the answer.
 */
module ConsumerGroupAdmin {
  import opened Wrappers
  import opened Errors
  import opened Offsets
  import AdminClient

  /** `ConsumerGroupInfo` as this module reports it: the group and its committed offsets. */
  datatype GroupOffsets = GroupOffsets(name: string, offsets: seq<TopicPartitionOffset>)

  const DeletePrefix := "Unable to delete the group "
  const DeleteInfix := ". Error "

  /** The error text of a failed deletion: the group the broker names and the error code. */
  function DeleteFailure(err: (string, string)): (m: string)
    ensures |m| == |DeletePrefix| + |err.0| + |DeleteInfix| + |err.1|
    ensures m[..|DeletePrefix|] == DeletePrefix
    ensures m[|DeletePrefix|..|DeletePrefix| + |err.0|] == err.0
    ensures m[|DeletePrefix| + |err.0|..|DeletePrefix| + |err.0| + |DeleteInfix|] == DeleteInfix
    ensures m[|DeletePrefix| + |err.0| + |DeleteInfix|..] == err.1
  {
    DeletePrefix + err.0 + DeleteInfix + err.1
  }

  /**
   * `delete_consumer_group`: the broker answers for the one group asked
   * about (the source asserts one answer); success is `Ok`, and a failure
   * becomes a Kafka error carrying the group and the error text.
   */
  function DeleteConsumerGroup(answers: Result<seq<Result<string, (string, string)>>, Error>): (r: Result<(), Error>)
    requires answers.Ok? ==> |answers.value| == 1
    ensures r.Ok? <==> answers.Ok? && answers.value[0].Ok?
    ensures answers.Err? ==> r == Err(answers.error)
    ensures answers.Ok? && answers.value[0].Err? ==> r == Err(Kafka(DeleteFailure(answers.value[0].error)))
  {
    match answers
    case Err(e) => Err(e)
    case Ok(results) =>
      match results[0]
      case Ok(_) => Ok(())
      case Err(err) => Err(Kafka(DeleteFailure(err)))
  }

  /**
   * A failed deletion's error keeps the broker's answer apart: for the same
   * group, two failures give the same error exactly when their error texts
   * agree.
   */
  lemma DeleteFailureDistinguishes(a: (string, string), b: (string, string))
    requires a.0 == b.0
    ensures DeleteFailure(a) == DeleteFailure(b) <==> a.1 == b.1
  {
    if DeleteFailure(a) == DeleteFailure(b) {
      var n := |DeletePrefix| + |a.0| + |DeleteInfix|;
      assert a.1 == DeleteFailure(a)[n..];
      assert b.1 == DeleteFailure(b)[n..];
    }
  }

  /** Two answers that fail for the same group give the same deletion error only when their error texts agree. */
  lemma DeleteReportsBrokerError(x: (string, string), y: (string, string))
    requires x.0 == y.0
    ensures DeleteConsumerGroup(Ok([Err(x)])) == DeleteConsumerGroup(Ok([Err(y)])) <==> x.1 == y.1
  {
    DeleteFailureDistinguishes(x, y);
  }

  /** Every assigned offset has a raw value (the source unwraps it). */
  predicate AllRaw(assignment: seq<PartitionOffset>)
  {
    forall i :: 0 <= i < |assignment| ==> ToRaw(assignment[i].offset).Some?
  }

  /**
   * The offsets `set_consumer_group` stores: for each assigned partition, in
   * order, its raw assigned offset minus one.
   */
  function StoredOffsets(assignment: seq<PartitionOffset>): (r: seq<TopicPartitionOffset>)
    requires AllRaw(assignment)
    ensures |r| == |assignment|
    ensures forall i :: 0 <= i < |r| ==> r[i].topic == assignment[i].topic && r[i].partitionId == assignment[i].partition
  {
    seq(|assignment|, i requires 0 <= i < |assignment| =>
      TopicPartitionOffset(assignment[i].topic, assignment[i].partition, ToRaw(assignment[i].offset).value - 1))
  }

  /**
   * Storing is one below the assignment: the stored offset plus one is the
   * raw assigned offset, so an assignment at position `n` stores `n - 1`, and
   * one at the beginning stores -3.
   */
  lemma StoredIsOneBelow(assignment: seq<PartitionOffset>, i: int)
    requires AllRaw(assignment) && 0 <= i < |assignment|
    ensures ToRaw(assignment[i].offset) == Some(StoredOffsets(assignment)[i].offset + 1)
    ensures assignment[i].offset.At? ==> StoredOffsets(assignment)[i].offset == assignment[i].offset.position - 1
    ensures assignment[i].offset.Beginning? ==> StoredOffsets(assignment)[i].offset == RawBeginning - 1
  {
  }

  /** Every offset to be stored is accepted by the consumer (the source expects each store to succeed). */
  predicate AllStored(stored: seq<TopicPartitionOffset>, store: TopicPartitionOffset -> Result<(), Error>)
  {
    forall i :: 0 <= i < |stored| ==> store(stored[i]).Ok?
  }

  /**
   * `set_consumer_group`: set up the group's consumer on the topics, store
   * one offset per assigned partition through `store`, and commit.  The
   * first failing step decides the error; on success the result is the list
   * of offsets committed.
   */
  function SetConsumerGroup(setup: Result<(), Error>, assignment: Result<seq<PartitionOffset>, Error>,
                            store: TopicPartitionOffset -> Result<(), Error>,
                            commit: seq<TopicPartitionOffset> -> Result<(), Error>): (r: Result<seq<TopicPartitionOffset>, Error>)
    requires setup.Ok? && assignment.Ok? ==> AllRaw(assignment.value)
    requires setup.Ok? && assignment.Ok? ==> AllStored(StoredOffsets(assignment.value), store)
    ensures setup.Err? ==> r == Err(setup.error)
    ensures setup.Ok? && assignment.Err? ==> r == Err(assignment.error)
    ensures setup.Ok? && assignment.Ok? ==> (r.Ok? <==> commit(StoredOffsets(assignment.value)).Ok?)
    ensures r.Ok? ==> setup.Ok? && assignment.Ok? && r.value == StoredOffsets(assignment.value)
  {
    match setup
    case Err(e) => Err(e)
    case Ok(_) =>
      match assignment
      case Err(e) => Err(e)
      case Ok(elements) =>
        var stored := StoredOffsets(elements);
        match commit(stored)
        case Err(e) => Err(e)
        case Ok(_) => Ok(stored)
  }

  /** Every non-invalid committed offset has a raw value (the source unwraps it). */
  predicate ValidRaw(elements: seq<PartitionOffset>)
  {
    forall i :: 0 <= i < |elements| && !elements[i].offset.Invalid? ==> ToRaw(elements[i].offset).Some?
  }

  /**
   * The committed offsets a group reports here: the elements whose offset is
   * not invalid, in order, each with its raw committed value.
   */
  function RawOffsets(elements: seq<PartitionOffset>): (r: seq<TopicPartitionOffset>)
    requires ValidRaw(elements)
    ensures |r| <= |elements|
    ensures forall i :: 0 <= i < |elements| && !elements[i].offset.Invalid? ==>
      TopicPartitionOffset(elements[i].topic, elements[i].partition, ToRaw(elements[i].offset).value) in r
  {
    if |elements| == 0 then []
    else
      assert forall i :: 1 <= i < |elements| ==> elements[i] == elements[1..][i - 1];
      var rest := RawOffsets(elements[1..]);
      var e := elements[0];
      if e.offset.Invalid? then rest
      else [TopicPartitionOffset(e.topic, e.partition, ToRaw(e.offset).value)] + rest
  }

  /** One element is reported, with its raw value, unless its offset is invalid. */
  lemma RawOfOne(e: PartitionOffset)
    requires ValidRaw([e])
    ensures !e.offset.Invalid? ==> ToRaw(e.offset).Some?
    ensures RawOffsets([e]) == if e.offset.Invalid? then [] else [TopicPartitionOffset(e.topic, e.partition, ToRaw(e.offset).value)]
  {
    assert [e][0] == e;
    assert [e][1..] == [];
  }

  /**
   * Reporting a list is reporting its two halves and concatenating: the
   * elements keep their order and each is kept or dropped on its own.
   */
  lemma {:induction false} RawOffsetsAppend(a: seq<PartitionOffset>, b: seq<PartitionOffset>)
    requires ValidRaw(a + b)
    ensures ValidRaw(a) && ValidRaw(b)
    ensures RawOffsets(a + b) == RawOffsets(a) + RawOffsets(b)
  {
    assert forall i :: 0 <= i < |a| ==> (a + b)[i] == a[i];
    assert forall i :: 0 <= i < |b| ==> (a + b)[|a| + i] == b[i];
    if |a| > 0 {
      assert (a + b)[0] == a[0];
      assert (a + b)[1..] == a[1..] + b;
      RawOffsetsAppend(a[1..], b);
    } else {
      assert a + b == b;
    }
  }

  /** Every reported offset comes from a non-invalid element, with its topic, partition and raw value. */
  lemma {:induction false} RawOnlyValid(elements: seq<PartitionOffset>, x: TopicPartitionOffset)
    requires ValidRaw(elements)
    requires x in RawOffsets(elements)
    ensures exists i :: 0 <= i < |elements| && !elements[i].offset.Invalid?
                        && x == TopicPartitionOffset(elements[i].topic, elements[i].partition, ToRaw(elements[i].offset).value)
  {
    assert forall i :: 1 <= i < |elements| ==> elements[i] == elements[1..][i - 1];
    var rest := RawOffsets(elements[1..]);
    if x in rest {
      RawOnlyValid(elements[1..], x);
      var i :| 0 <= i < |elements[1..]| && !elements[1..][i].offset.Invalid?
               && x == TopicPartitionOffset(elements[1..][i].topic, elements[1..][i].partition, ToRaw(elements[1..][i].offset).value);
      assert elements[1..][i] == elements[i + 1];
    }
  }

  /** The invalid offset is never reported: no reported value is -1001. */
  lemma NoInvalidReported(elements: seq<PartitionOffset>)
    requires ValidRaw(elements)
    ensures forall k :: 0 <= k < |RawOffsets(elements)| ==> RawOffsets(elements)[k].offset != RawInvalid
  {
    var r := RawOffsets(elements);
    forall k | 0 <= k < |r| ensures r[k].offset != RawInvalid {
      RawOnlyValid(elements, r[k]);
    }
  }

  /**
   * The two describe operations report the same offsets when every committed
   * offset is an invalid one or a non-negative position; they differ on the
   * special kinds, where the admin client's `map_offset` reports 0 or -1 and
   * this module the raw value.
   */
  lemma {:induction false} RawAgreesOnPositions(elements: seq<PartitionOffset>)
    requires forall i :: 0 <= i < |elements| ==> elements[i].offset.Invalid? || (elements[i].offset.At? && elements[i].offset.position >= 0)
    ensures ValidRaw(elements)
    ensures RawOffsets(elements) == AdminClient.ReportedOffsets(elements)
  {
    if |elements| > 0 {
      assert forall i :: 1 <= i < |elements| ==> elements[i] == elements[1..][i - 1];
      RawAgreesOnPositions(elements[1..]);
    }
  }

  /** A committed offset at the beginning is reported as -2 here and as 0 by the admin client. */
  lemma BeginningReportedDifferently(topic: string, partition: int)
    ensures RawOffsets([PartitionOffset(topic, partition, Beginning)]) == [TopicPartitionOffset(topic, partition, RawBeginning)]
    ensures AdminClient.ReportedOffsets([PartitionOffset(topic, partition, Beginning)]) == [TopicPartitionOffset(topic, partition, 0)]
  {
    var one := [PartitionOffset(topic, partition, Beginning)];
    assert one[1..] == [];
  }

  /**
   * `describe_consumer_group`: ask for the group's committed offset of every
   * (topic, partition) pair of the partition list and report the valid ones
   * with their raw values.  The committed-offsets call must succeed (the
   * source unwraps it).
   */
  function DescribeConsumerGroup(name: string, partitions: Result<seq<(string, int)>, Error>,
                                 committed: seq<(string, int)> -> Result<seq<PartitionOffset>, string>)
    : (r: Result<GroupOffsets, Error>)
    requires partitions.Ok? ==> committed(partitions.value).Ok? && ValidRaw(committed(partitions.value).value)
    ensures r.Ok? <==> partitions.Ok?
    ensures r.Err? ==> r.error == partitions.error
    ensures r.Ok? ==> r.value.name == name && r.value.offsets == RawOffsets(committed(partitions.value).value)
  {
    match partitions
    case Err(e) => Err(e)
    case Ok(list) => Ok(GroupOffsets(name, RawOffsets(committed(list).value)))
  }
}
