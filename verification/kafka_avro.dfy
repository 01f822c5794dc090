/**
 * The older consumer-side Avro parser (`kafka::consumer::avro_parser`): the
 * same wire-format header as the newer parser, schema-registry credentials
 * taken from the cluster configuration, and a schema-less mapping from Avro
 * values to JSON that only knows a handful of value kinds.
 *
 * The registry fetch, schema parsing, binary decoding and the key parser are
 * library or network calls; they are parameters here.  The final
 * `serde_json::to_string` is not modelled: the result is the JSON tree.
 */
module KafkaAvro {
  import opened Wrappers
  import opened Ints
  import opened Errors
  import opened Configuration
  import opened AvroJson
  import opened AvroJsonLaws
  import P = AvroPayload
  import V = AvroValues
  import S = AvroSchemas
  import J = JsonValues

  const InvalidAvro := "Invalid AVRO byte array received"
  const SchemaParseError := "Unable to parse the schema from schema registry"

  /** The message of `todo!()`. */
  const NotImplemented := "not yet implemented"

  /** How the older parser fails: with a `TauriError`, or by a panic (`unwrap`, `todo!`). */
  datatype Failure = Raised(error: TauriError) | Panicked(message: string)

  /**
   * `CachedSchemaRegistry::get_schema_by_id` on a client built from an
   * endpoint, a user name and a password: the raw schema text of an id, or
   * the error it converts to.
   */
  type RawRegistry = (string, string, string, int) -> Result<string, TauriError>

  /** `Schema::parse_str`: the schema a text describes, or the text of the parse error. */
  type SchemaParser = string -> Result<S.Schema, string>

  /** The kinds of Kafka message timestamp. */
  datatype Timestamp = NotAvailable | CreateTime(createTime: int) | LogAppendTime(appendTime: int)

  /** A consumed message: optional key and payload bytes, position, and timestamp. */
  datatype Message = Message(key: Option<seq<byte>>, payload: Option<seq<byte>>, offset: int, partition: int, timestamp: Timestamp)

  /** `KafkaRecord`: the key as the key parser renders it, the payload as JSON, and the position. */
  datatype KafkaRecord<K> = KafkaRecord(key: K, value: Option<J.Json>, offset: int, partition: int, timestamp: Option<int>)

  /**
   * The value kinds the older mapper handles: null, booleans, ints, longs and
   * strings; a union through its inner value; maps and records through all
   * of their values.  Every other kind reaches a `todo!()`.
   */
  predicate Supported(v: V.Value)
    decreases v
  {
    match v
    case Null => true
    case Boolean(_) => true
    case Int(_) => true
    case Long(_) => true
    case String(_) => true
    case Union(_, inner) => Supported(inner)
    case Map(entries) => forall i :: 0 <= i < |entries| ==> Supported(entries[i].value)
    case Record(fields) => forall i :: 0 <= i < |fields| ==> Supported(fields[i].value)
    case _ => false
  }

  /**
   * The older `map`: no schema and no cache.  It succeeds exactly on the
   * supported values; on any other it panics with `todo!()`.
   */
  function OldMap(v: V.Value): (r: Result<J.Json, Panic>)
    ensures r.Ok? <==> Supported(v)
    ensures r.Err? ==> r.error == Panic(NotImplemented)
    decreases V.Size(v), 0
  {
    match v
    case Null => Ok(J.Null)
    case Boolean(b) => Ok(J.Bool(b))
    case Int(i) => Ok(J.Int(i))
    case Long(l) => Ok(J.Int(l))
    case String(text) => Ok(J.String(text))
    case Union(_, inner) => OldMap(inner)
    case Map(entries) =>
      (match OldPairs(entries)
       case Err(p) => Err(p)
       case Ok(pairs) => Ok(J.Object(J.ObjectOf(pairs))))
    case Record(fields) =>
      (match OldPairs(fields)
       case Err(p) => Err(p)
       case Ok(pairs) => Ok(J.Object(J.ObjectOf(pairs))))
    case _ => Err(Panic(NotImplemented))
  }

  /** The loop that inserts each entry's key with its mapped value, stopping at the first panic. */
  function OldPairs(entries: seq<V.Entry>): (r: Result<seq<(string, J.Json)>, Panic>)
    ensures r.Ok? <==> forall i :: 0 <= i < |entries| ==> Supported(entries[i].value)
    ensures r.Err? ==> r.error == Panic(NotImplemented)
    ensures r.Ok? ==> |r.value| == |entries|
    ensures r.Ok? ==> forall i :: 0 <= i < |entries| ==> r.value[i].0 == entries[i].key
    decreases V.EntriesSize(entries), 1
  {
    if |entries| == 0 then Ok([])
    else
      match OldMap(entries[0].value)
      case Err(p) => Err(p)
      case Ok(first) =>
        match OldPairs(entries[1..])
        case Err(p) =>
          assert !Supported(entries[1..][0].value) || exists i :: 0 <= i < |entries| - 1 && !Supported(entries[1..][i].value);
          Err(p)
        case Ok(rest) =>
          assert forall i :: 1 <= i < |entries| ==> entries[i] == entries[1..][i - 1];
          Ok([(entries[0].key, first)] + rest)
  }

  /** Each inserted pair holds the mapped value of its entry. */
  lemma {:induction false} OldPairsElementwise(entries: seq<V.Entry>)
    requires OldPairs(entries).Ok?
    ensures forall i :: 0 <= i < |entries| ==> OldMap(entries[i].value) == Ok(OldPairs(entries).value[i].1)
  {
    if |entries| > 0 {
      OldPairsElementwise(entries[1..]);
      assert forall i :: 1 <= i < |entries| ==> entries[i] == entries[1..][i - 1];
    }
  }

  /**
   * Where the older mapper succeeds and the value fits a schema, it computes
   * the same tree as the newer, schema-driven one: the newer parser extends
   * the older.
   */
  lemma {:induction false} OldAgreesWithNew(v: V.Value, s: S.Schema)
    requires Supported(v) && Fits(v, s)
    ensures OldMap(v) == Ok(Expected(v, s))
    decreases v
  {
    match v
    case Union(branch, inner) =>
      ExpectedUnion(branch, inner, s);
      OldAgreesWithNew(inner, s.variants[branch]);
    case Map(entries) =>
      ExpectedMap(entries, s);
      forall i | 0 <= i < |entries|
        ensures OldMap(entries[i].value) == Ok(Expected(entries[i].value, s.values))
      {
        OldAgreesWithNew(entries[i].value, s.values);
      }
      OldPairsElementwise(entries);
      assert OldPairs(entries).value == ExpectedPairs(entries, s.values, map[]);
    case Record(fields) =>
      ExpectedRecord(fields, s);
      forall i | 0 <= i < |fields|
        ensures OldMap(fields[i].value) == Ok(Expected(fields[i].value, FieldSchema(fields[i], s)))
      {
        OldAgreesWithNew(fields[i].value, FieldSchema(fields[i], s));
      }
      OldPairsElementwise(fields);
      assert OldPairs(fields).value == ExpectedFieldPairs(fields, s, map[]);
    case _ =>
  }

  /** The same agreement stated against the newer mapper itself, from any well-formed cache. */
  lemma OldAgreesWithMapValue(v: V.Value, s: S.Schema, cache: Cache)
    requires CacheWf(cache)
    requires Supported(v) && Fits(v, s)
    ensures MapValue(v, s, cache).Ok? && OldMap(v) == Ok(MapValue(v, s, cache).value.json)
  {
    MapsAsExpected(v, s, cache);
    OldAgreesWithNew(v, s);
  }

  /**
   * The older `get_schema_id`: its error branch cannot be taken, since bytes 1
   * to 4 always form a 4-byte array once the header has been checked.
   */
  function SchemaIdOf(raw: seq<byte>): (r: Result<int, TauriError>)
    requires |raw| >= P.HeaderLength
    ensures r.Ok? && IsI32(r.value)
    ensures EncodeSigned(r.value, 4) == raw[1..P.HeaderLength]
  {
    Ok(P.SchemaId(raw))
  }

  /** The test vector of the older parser: bytes `00 00 01 86 c5` carry schema id 100037. */
  lemma OldSchemaIdVector()
    ensures SchemaIdOf([0x00, 0x00, 0x01, 0x86, 0xc5, 0x00, 0x00, 0x00]) == Ok(100037)
  {
    P.SchemaIdVector();
  }

  /**
   * `parse_avro`: check the header, read the schema id, build the registry
   * client from the configured credentials (both must be present, or
   * `unwrap` panics), fetch and parse the schema, decode the datum after the
   * header and map it without a schema.
   */
  function ParseAvro(raw: seq<byte>, config: RegistryConfig, registry: RawRegistry, parse: SchemaParser, decode: P.Decoder)
    : (r: Result<J.Json, Failure>)
    ensures r.Ok? ==> P.HasHeader(raw) && config.username.Some? && config.password.Some?
  {
    if !P.HasHeader(raw) then Err(Raised(TauriError(InvalidAvro, P.HeaderMessage)))
    else
      var id := SchemaIdOf(raw).value;
      if config.username.None? || config.password.None? then Err(Panicked(UnwrapNone))
      else
        match registry(config.endpoint, config.username.value, config.password.value, id)
        case Err(e) => Err(Raised(e))
        case Ok(text) =>
          match parse(text)
          case Err(e) => Err(Raised(TauriError(SchemaParseError, e)))
          case Ok(schema) =>
            match decode(schema, raw[P.HeaderLength..])
            case Err(e) => Err(Raised(TauriError(P.DecodeMessage, e)))
            case Ok(value) =>
              match OldMap(value)
              case Err(p) => Err(Panicked(p.message))
              case Ok(json) => Ok(json)
  }

  /**
   * A payload of at most five bytes, or one not starting with 0x00, is
   * rejected with "Invalid AVRO byte array received" before the
   * configuration, the registry or the decoder is consulted.
   */
  lemma OldHeaderRejected(raw: seq<byte>, config: RegistryConfig, registry: RawRegistry, parse: SchemaParser, decode: P.Decoder,
                          config2: RegistryConfig, registry2: RawRegistry, parse2: SchemaParser, decode2: P.Decoder)
    requires |raw| <= 5 || raw[0] != 0
    ensures ParseAvro(raw, config, registry, parse, decode) == Err(Raised(TauriError(InvalidAvro, P.HeaderMessage)))
    ensures ParseAvro(raw, config, registry, parse, decode) == ParseAvro(raw, config2, registry2, parse2, decode2)
  {
  }

  /**
   * With a valid header but a missing user name or password the parser
   * panics in `unwrap`, whatever the registry would answer.
   */
  lemma MissingCredentials(raw: seq<byte>, config: RegistryConfig, registry: RawRegistry, parse: SchemaParser, decode: P.Decoder)
    requires P.HasHeader(raw)
    requires config.username.None? || config.password.None?
    ensures ParseAvro(raw, config, registry, parse, decode) == Err(Panicked(UnwrapNone))
  {
  }

  /**
   * A framed payload with credentials is answered by asking the registry for
   * exactly the framed id and decoding exactly the datum; a decoded value
   * the older mapper supports becomes its tree, and any other panics with
   * `todo!()`.
   */
  lemma OldFramedPayload(id: int, datum: seq<byte>, config: RegistryConfig, registry: RawRegistry, parse: SchemaParser,
                         decode: P.Decoder)
    requires IsI32(id) && |datum| >= 1
    requires config.username.Some? && config.password.Some?
    ensures var fetched := registry(config.endpoint, config.username.value, config.password.value, id);
      var r := ParseAvro(P.Frame(id, datum), config, registry, parse, decode);
      && (fetched.Err? ==> r == Err(Raised(fetched.error)))
      && (fetched.Ok? && parse(fetched.value).Err? ==> r == Err(Raised(TauriError(SchemaParseError, parse(fetched.value).error))))
      && (fetched.Ok? && parse(fetched.value).Ok? ==>
           var decoded := decode(parse(fetched.value).value, datum);
           && (decoded.Err? ==> r == Err(Raised(TauriError(P.DecodeMessage, decoded.error))))
           && (decoded.Ok? && Supported(decoded.value) ==> r == Ok(OldMap(decoded.value).value))
           && (decoded.Ok? && !Supported(decoded.value) ==> r == Err(Panicked(NotImplemented))))
  {
    P.FrameRoundTrip(id, datum);
  }

  /** The timestamp of a record: none when the broker gives none, otherwise its milliseconds, whichever the kind. */
  function TimestampOf(t: Timestamp): (r: Option<int>)
    ensures r.None? <==> t.NotAvailable?
    ensures t.CreateTime? ==> r == Some(t.createTime)
    ensures t.LogAppendTime? ==> r == Some(t.appendTime)
  {
    match t
    case NotAvailable => None
    case CreateTime(ms) => Some(ms)
    case LogAppendTime(ms) => Some(ms)
  }

  /**
   * `parse_record`: the payload, when present, goes through `parse_avro`;
   * the key through the key parser; offset, partition and timestamp are
   * copied.
   */
  function ParseRecord<K>(msg: Message, config: RegistryConfig, registry: RawRegistry, parse: SchemaParser, decode: P.Decoder,
                          parseKey: Option<seq<byte>> -> K): (r: Result<KafkaRecord<K>, Failure>)
    ensures r.Ok? ==> r.value.offset == msg.offset && r.value.partition == msg.partition
    ensures r.Ok? ==> r.value.timestamp == TimestampOf(msg.timestamp) && r.value.key == parseKey(msg.key)
    ensures msg.payload.None? ==> r.Ok? && r.value.value.None?
  {
    var value :=
      match msg.payload
      case None => Ok(None)
      case Some(raw) =>
        match ParseAvro(raw, config, registry, parse, decode)
        case Err(e) => Err(e)
        case Ok(json) => Ok(Some(json));
    match value
    case Err(e) => Err(e)
    case Ok(json) => Ok(KafkaRecord(parseKey(msg.key), json, msg.offset, msg.partition, TimestampOf(msg.timestamp)))
  }

  /**
   * A message without a payload is never decoded: the record is the same
   * whatever the configuration, registry, schema parser and decoder.
   */
  lemma AbsentPayloadNotDecoded<K>(msg: Message, parseKey: Option<seq<byte>> -> K,
                                   config: RegistryConfig, registry: RawRegistry, parse: SchemaParser, decode: P.Decoder,
                                   config2: RegistryConfig, registry2: RawRegistry, parse2: SchemaParser, decode2: P.Decoder)
    requires msg.payload.None?
    ensures ParseRecord(msg, config, registry, parse, decode, parseKey)
         == ParseRecord(msg, config2, registry2, parse2, decode2, parseKey)
  {
  }

  /**
   * A message with a payload gives a record exactly when its payload parses,
   * and the record then carries that payload's tree; otherwise the record
   * fails as the payload did.
   */
  lemma PresentPayloadParsed<K>(msg: Message, parseKey: Option<seq<byte>> -> K,
                                config: RegistryConfig, registry: RawRegistry, parse: SchemaParser, decode: P.Decoder)
    requires msg.payload.Some?
    ensures var p := ParseAvro(msg.payload.value, config, registry, parse, decode);
      var r := ParseRecord(msg, config, registry, parse, decode, parseKey);
      && (r.Ok? <==> p.Ok?)
      && (p.Ok? ==> r.value.value == Some(p.value))
      && (p.Err? ==> r.error == p.error)
  {
  }
}
