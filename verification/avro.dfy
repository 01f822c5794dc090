/**
 * Decoded Avro data (`apache_avro::types::Value`) as the Avro binary decoder
 * hands it to the mappers.  The decoder is a library call outside this model:
 * values are inputs, and a value's numbers are whatever the decoder produced.
 */
module AvroValues {
  import opened Ints

  datatype Value =
    | Null
    | Boolean(b: bool)
    | Int(i: int)
    | Long(l: int)
    | Float(floatBits: nat)
    | Double(doubleBits: nat)
    | Bytes(bytes: seq<byte>)
    | String(s: string)
    | Fixed(size: nat, fixedBytes: seq<byte>)
    | Enum(index: nat, symbol: string)
    | Union(branch: nat, inner: Value)
    | Array(items: seq<Value>)
    | Map(entries: seq<Entry>)
    | Record(fields: seq<Entry>)
    | Date(days: int)
      /** The unscaled value as a big-endian two's-complement byte string. */
    | Decimal(unscaled: seq<byte>)
    | TimeMillis(timeMillis: int)
    | TimeMicros(timeMicros: int)
    | TimestampMillis(timestampMillis: int)
    | TimestampMicros(timestampMicros: int)
    | Duration(months: nat, durationDays: nat, millis: nat)
    | Uuid(uuid: string)

  /** One key/value pair of a `Map` or one named field of a `Record`, in decoding order. */
  datatype Entry = Entry(key: string, value: Value)

  /** The number of value nodes in `v`: the measure the recursive mappers descend on. */
  function Size(v: Value): (n: nat)
    ensures n >= 1
  {
    match v
    case Union(_, inner) => 1 + Size(inner)
    case Array(items) => 1 + ItemsSize(items)
    case Map(entries) => 1 + EntriesSize(entries)
    case Record(fields) => 1 + EntriesSize(fields)
    case _ => 1
  }

  function ItemsSize(items: seq<Value>): nat
  {
    if |items| == 0 then 0 else Size(items[0]) + ItemsSize(items[1..])
  }

  function EntriesSize(entries: seq<Entry>): nat
  {
    if |entries| == 0 then 0 else Size(entries[0].value) + EntriesSize(entries[1..])
  }

  /** The keys of a list of entries. */
  function EntryKeys(entries: seq<Entry>): (ks: set<string>)
    ensures forall i :: 0 <= i < |entries| ==> entries[i].key in ks
    ensures forall k :: k in ks ==> exists i :: 0 <= i < |entries| && entries[i].key == k
  {
    set i | 0 <= i < |entries| :: entries[i].key
  }
}

/**
 * Avro schemas (`apache_avro::Schema`), reduced to what the mappers inspect.
 * Documentation, aliases, defaults and field order attributes are not part of
 * this model.
 */
module AvroSchemas {
  import opened Wrappers

  /** A full name: the name and its optional namespace (`apache_avro::schema::Name`). */
  datatype Name = Name(name: string, namespace: Option<string>)

  datatype Schema =
    | Null
    | Boolean
    | Int
    | Long
    | Float
    | Double
    | Bytes
    | String
    | Array(items: Schema)
    | Map(values: Schema)
    | Union(variants: seq<Schema>)
      /** `lookup` sends a field name to its position in `fields`. */
    | Record(name: Name, fields: seq<RecordField>, lookup: map<string, nat>)
    | Enum(name: Name, symbols: seq<string>)
    | Fixed(name: Name, size: nat)
    | Decimal(precision: nat, scale: nat, inner: Schema)
    | Uuid
    | Date
    | TimeMillis
    | TimeMicros
    | TimestampMillis
    | TimestampMicros
    | Duration
      /** A use of a named type defined elsewhere in the schema. */
    | Ref(name: Name)
  {
    /** The named types: the only schemas a reference can stand for. */
    predicate IsNamed() { Record? || Enum? || Fixed? }
  }

  datatype RecordField = RecordField(name: string, schema: Schema)

  /** `s` contains no `Ref` anywhere, so mapping under it never consults the reference cache. */
  predicate RefFree(s: Schema)
  {
    match s
    case Ref(_) => false
    case Array(items) => RefFree(items)
    case Map(values) => RefFree(values)
    case Union(variants) => forall i :: 0 <= i < |variants| ==> RefFree(variants[i])
    case Record(_, fields, _) => forall i :: 0 <= i < |fields| ==> RefFree(fields[i].schema)
    case _ => true
  }
}
