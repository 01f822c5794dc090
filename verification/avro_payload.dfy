/**
 * The Confluent Schema Registry wire format as the newer Avro parser reads it
 * (`parse_payload` and `get_schema_id`): a 0x00 magic byte, a big-endian
 * 4-byte schema id, then the Avro binary datum.
 *
 * The registry lookup and the binary decoder are a network call and a library
 * call: both are parameters here.  The JSON text serializer is not modelled;
 * the result is the JSON tree it would print.
 */
module AvroPayload {
  import opened Wrappers
  import opened Ints
  import opened Errors
  import opened AvroJson
  import opened AvroJsonLaws
  import V = AvroValues
  import S = AvroSchemas
  import J = JsonValues

  /** How parsing a payload fails: with an error result, or by a panic of the mapper. */
  datatype Failure = Raised(error: Error) | Panicked(message: string)

  /** `get_schema_by_id`: the schema registered under an id, or the text of the lookup error. */
  type Registry = int -> Result<S.Schema, string>

  /** `from_avro_datum`: the value a datum encodes under a schema, or the text of the decoding error. */
  type Decoder = (S.Schema, seq<byte>) -> Result<V.Value, string>

  const MagicByte: byte := 0
  const HeaderLength: nat := 5

  const HeaderMessage := "Supported avro messages should start with 0x00 " + "follow by the schema id (4 bytes)"
  const RegistryMessage := "Unable to retrieve the schema " + "from schema registry"
  const DecodeMessage := "Unable to parse the avro record"

  /** The payload is longer than the header and starts with the magic byte. */
  predicate HasHeader(raw: seq<byte>)
  {
    |raw| > HeaderLength && raw[0] == MagicByte
  }

  /** `get_schema_id`: bytes 1 to 4 read as a big-endian `i32`. */
  function SchemaId(raw: seq<byte>): (id: int)
    requires |raw| >= HeaderLength
    ensures IsI32(id)
    ensures EncodeSigned(id, 4) == raw[1..HeaderLength]
  {
    EncodeSignedOfSigned(raw[1..HeaderLength]);
    Signed(raw[1..HeaderLength])
  }

  /** The wire-format framing of a datum under schema id `id`. */
  function Frame(id: int, datum: seq<byte>): (raw: seq<byte>)
    requires IsI32(id)
    ensures |raw| == HeaderLength + |datum|
  {
    [MagicByte] + EncodeSigned(id, 4) + datum
  }

  /**
   * `parse_payload`: check the header, fetch the schema by id, decode the
   * datum that follows the header, and map the decoded value to JSON,
   * starting from an empty reference cache.
   */
  function ParsePayload(raw: seq<byte>, registry: Registry, decode: Decoder): (r: Result<J.Json, Failure>)
    ensures !HasHeader(raw) ==> r == Err(Raised(AvroParse(HeaderMessage)))
    ensures r.Ok? ==> HasHeader(raw)
  {
    if !HasHeader(raw) then Err(Raised(AvroParse(HeaderMessage)))
    else
      match registry(SchemaId(raw))
      case Err(e) => Err(Raised(AvroParse(RegistryMessage + "\n" + e)))
      case Ok(schema) =>
        match decode(schema, raw[HeaderLength..])
        case Err(e) => Err(Raised(AvroParse(DecodeMessage + "\n" + e)))
        case Ok(value) =>
          match MapValue(value, schema, map[])
          case Err(p) => Err(Panicked(p.message))
          case Ok(m) => Ok(m.json)
  }

  /**
   * A payload of at most five bytes, or one not starting with 0x00, is
   * rejected with the header error before the registry or the decoder is
   * consulted: whatever they would answer, the result is the same.
   */
  lemma HeaderRejected(raw: seq<byte>, registry: Registry, decode: Decoder, registry2: Registry, decode2: Decoder)
    requires |raw| <= 5 || raw[0] != 0
    ensures ParsePayload(raw, registry, decode) == Err(Raised(AvroParse(HeaderMessage)))
    ensures ParsePayload(raw, registry, decode) == ParsePayload(raw, registry2, decode2)
  {
  }

  /**
   * Framing and reading the header are inverse: a framed datum has a valid
   * header, its schema id is the framed id, and the bytes from index 5 on are
   * the datum.
   */
  lemma FrameRoundTrip(id: int, datum: seq<byte>)
    requires IsI32(id)
    requires |datum| >= 1
    ensures HasHeader(Frame(id, datum))
    ensures SchemaId(Frame(id, datum)) == id
    ensures Frame(id, datum)[HeaderLength..] == datum
  {
    var raw := Frame(id, datum);
    assert raw[1..HeaderLength] == EncodeSigned(id, 4);
    SignedRoundTrip(id, 4);
  }

  /** Every payload with a valid header is the framing of its own schema id and the rest of its bytes. */
  lemma HeaderIsFrame(raw: seq<byte>)
    requires HasHeader(raw)
    ensures raw == Frame(SchemaId(raw), raw[HeaderLength..])
  {
  }

  /**
   * A framed payload is answered by looking up exactly the framed id and
   * decoding exactly the datum: a registry error is reported with its text,
   * a decoding error likewise, and otherwise the result is the mapped value.
   */
  lemma FramedPayload(id: int, datum: seq<byte>, registry: Registry, decode: Decoder)
    requires IsI32(id)
    requires |datum| >= 1
    ensures registry(id).Err? ==>
      ParsePayload(Frame(id, datum), registry, decode) == Err(Raised(AvroParse(RegistryMessage + "\n" + registry(id).error)))
    ensures registry(id).Ok? && decode(registry(id).value, datum).Err? ==>
      ParsePayload(Frame(id, datum), registry, decode)
        == Err(Raised(AvroParse(DecodeMessage + "\n" + decode(registry(id).value, datum).error)))
    ensures registry(id).Ok? && decode(registry(id).value, datum).Ok? ==>
      var m := MapValue(decode(registry(id).value, datum).value, registry(id).value, map[]);
      ParsePayload(Frame(id, datum), registry, decode) == (if m.Ok? then Ok(m.value.json) else Err(Panicked(m.error.message)))
  {
    FrameRoundTrip(id, datum);
  }

  /** The test vector of the source: bytes `00 00 01 86 c5` carry schema id 100037. */
  lemma SchemaIdVector()
    ensures SchemaId([0x00, 0x00, 0x01, 0x86, 0xc5, 0x00, 0x00, 0x00]) == 100037
  {
    var raw: seq<byte> := [0x00, 0x00, 0x01, 0x86, 0xc5, 0x00, 0x00, 0x00];
    var id := raw[1..HeaderLength];
    assert id == [0x00, 0x01, 0x86, 0xc5];
    assert id[..1][..0] == [] && id[..2][..1] == id[..1] && id[..3][..2] == id[..2] && id[..3] == id[..|id| - 1];
    assert Unsigned(id[..1]) == 0;
    assert Unsigned(id[..2]) == 1;
    assert Unsigned(id[..3]) == 0x186;
    assert Unsigned(id) == 0x186c5;
  }
}
