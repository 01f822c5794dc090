/**
 * Offsets as the Kafka client library represents them (`rdkafka::Offset`),
 * the topic/partition/offset elements of its partition lists, and the
 * application's own `TopicPartitionOffset`.
 *
 * The raw values are librdkafka's: -2 for the beginning, -1 for the end,
 * -1000 for the stored offset, -1001 for an invalid one, and tails counted
 * down from -2000.  The library itself is not part of this model.
 */
module Offsets {
  import opened Wrappers

  const RawBeginning: int := -2
  const RawEnd: int := -1
  const RawStored: int := -1000
  const RawInvalid: int := -1001
  const RawTailBase: int := -2000

  /** `rdkafka::Offset`. */
  datatype Offset = Beginning | End | Stored | Invalid | At(position: int) | OffsetTail(back: int)

  /** `Offset::to_raw`: the raw value, if the offset has one (a negative position or a non-positive tail has none). */
  function ToRaw(o: Offset): (r: Option<int>)
    ensures r.None? <==> (o.At? && o.position < 0) || (o.OffsetTail? && o.back <= 0)
    ensures o.At? && o.position >= 0 ==> r == Some(o.position)
    ensures r.Some? && r.value >= 0 ==> o == At(r.value)
  {
    match o
    case Beginning => Some(RawBeginning)
    case End => Some(RawEnd)
    case Stored => Some(RawStored)
    case Invalid => Some(RawInvalid)
    case At(n) => if n >= 0 then Some(n) else None
    case OffsetTail(n) => if n > 0 then Some(RawTailBase - n) else None
  }

  /** One element of a topic partition list: a topic, a partition and an offset. */
  datatype PartitionOffset = PartitionOffset(topic: string, partition: int, offset: Offset)

  /** The application's `TopicPartitionOffset`: an offset reported as a plain number. */
  datatype TopicPartitionOffset = TopicPartitionOffset(topic: string, partitionId: int, offset: int)
}
