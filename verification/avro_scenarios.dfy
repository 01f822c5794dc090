/**
 * Concrete runs of the newer Avro parser: the simple-types record of the
 * source's own test, and a recursive record whose inner occurrence is a
 * reference resolved through the cache.
 */
module AvroScenarios {
  import opened Wrappers
  import opened Ints
  import opened AvroJson
  import opened AvroJsonLaws
  import opened AvroPayload
  import V = AvroValues
  import S = AvroSchemas
  import J = JsonValues

  const SampleName := S.Name("sampleRecord", Some("com.example.namespace"))

  /** The record schema of the simple-types test: one field per primitive type. */
  const SampleSchema := S.Record(
    SampleName,
    [ S.RecordField("null_field", S.Null), S.RecordField("boolean_field", S.Boolean),
      S.RecordField("int_field", S.Int), S.RecordField("long_field", S.Long),
      S.RecordField("float_field", S.Float), S.RecordField("double_field", S.Double),
      S.RecordField("bytes_field", S.Bytes), S.RecordField("string_field", S.String) ],
    map["null_field" := 0, "boolean_field" := 1, "int_field" := 2, "long_field" := 3,
        "float_field" := 4, "double_field" := 5, "bytes_field" := 6, "string_field" := 7])

  /** The decoded record of the simple-types test; the two floating-point fields are opaque bit patterns. */
  function SampleValue(floatBits: nat, doubleBits: nat): V.Value
  {
    V.Record(
      [ V.Entry("null_field", V.Null), V.Entry("boolean_field", V.Boolean(true)),
        V.Entry("int_field", V.Int(12)), V.Entry("long_field", V.Long(12345667)),
        V.Entry("float_field", V.Float(floatBits)), V.Entry("double_field", V.Double(doubleBits)),
        V.Entry("bytes_field", V.Bytes([0x01, 0x02, 0xaa])), V.Entry("string_field", V.String("YO!! test")) ])
  }

  /**
   * The JSON object the simple-types test expects (serde_json prints its keys
   * in sorted order; the map is written here in field order).
   */
  function SampleJson(floatBits: nat, doubleBits: nat): J.Json
  {
    J.Object(map[
      "null_field" := J.Null, "boolean_field" := J.Bool(true), "int_field" := J.Int(12),
      "long_field" := J.Int(12345667), "float_field" := J.FromFloat(J.Single(floatBits)),
      "double_field" := J.FromFloat(J.Double(doubleBits)), "bytes_field" := J.Array([J.Int(1), J.Int(2), J.Int(170)]),
      "string_field" := J.String("YO!! test")])
  }

  /** The pairs the mapper inserts for the sample record, in field order. */
  function SamplePairs(floatBits: nat, doubleBits: nat): seq<(string, J.Json)>
  {
    [ ("null_field", J.Null), ("boolean_field", J.Bool(true)), ("int_field", J.Int(12)),
      ("long_field", J.Int(12345667)), ("float_field", J.FromFloat(J.Single(floatBits))),
      ("double_field", J.FromFloat(J.Double(doubleBits))), ("bytes_field", J.Array([J.Int(1), J.Int(2), J.Int(170)])),
      ("string_field", J.String("YO!! test")) ]
  }

  lemma SampleFits(floatBits: nat, doubleBits: nat)
    ensures Fits(SampleValue(floatBits, doubleBits), SampleSchema)
  {
    var fields := SampleValue(floatBits, doubleBits).fields;
    forall i | 0 <= i < |fields|
      ensures FieldKnown(fields[i], SampleSchema) && Fits(fields[i].value, FieldSchema(fields[i], SampleSchema))
    {
    }
  }

  /** Field `i` of the sample record has, as its expected pair, pair `i` of the sample pairs. */
  lemma SampleFieldPair(floatBits: nat, doubleBits: nat, i: nat)
    requires i < 8
    ensures var f := SampleValue(floatBits, doubleBits).fields[i];
      FieldKnown(f, SampleSchema) && Fits(f.value, FieldSchema(f, SampleSchema))
      && (f.key, Expected(f.value, FieldSchema(f, SampleSchema))) == SamplePairs(floatBits, doubleBits)[i]
  {
    var fields := SampleValue(floatBits, doubleBits).fields;
    if i == 6 {
      assert BytesJson([0x01, 0x02, 0xaa]) == J.Array([J.Int(1), J.Int(2), J.Int(170)]);
    } else if i == 0 {
    } else if i == 1 {
    } else if i == 2 {
    } else if i == 3 {
    } else if i == 4 {
    } else if i == 5 {
    } else {
      assert i == 7;
    }
  }

  /** The expected pairs of the sample record's fields are the sample pairs. */
  lemma SampleFieldPairs(floatBits: nat, doubleBits: nat)
    ensures var fields := SampleValue(floatBits, doubleBits).fields;
      (forall i :: 0 <= i < |fields| ==> FieldKnown(fields[i], SampleSchema) && Fits(fields[i].value, FieldSchema(fields[i], SampleSchema)))
      && ExpectedFieldPairs(fields, SampleSchema, map[]) == SamplePairs(floatBits, doubleBits)
  {
    var fields := SampleValue(floatBits, doubleBits).fields;
    forall i | 0 <= i < |fields|
      ensures FieldKnown(fields[i], SampleSchema) && FitsIn(fields[i].value, FieldSchema(fields[i], SampleSchema), map[])
    {
      SampleFieldPair(floatBits, doubleBits, i);
    }
    ExpectedFieldPairsElements(fields, SampleSchema, map[]);
    var pairs, want := ExpectedFieldPairs(fields, SampleSchema, map[]), SamplePairs(floatBits, doubleBits);
    forall i | 0 <= i < |fields|
      ensures pairs[i] == want[i]
    {
      SampleFieldPair(floatBits, doubleBits, i);
    }
  }

  lemma SampleExpected(floatBits: nat, doubleBits: nat)
    requires Fits(SampleValue(floatBits, doubleBits), SampleSchema)
    ensures Expected(SampleValue(floatBits, doubleBits), SampleSchema) == J.Object(J.ObjectOf(SamplePairs(floatBits, doubleBits)))
  {
    var fields := SampleValue(floatBits, doubleBits).fields;
    SampleFieldPairs(floatBits, doubleBits);
    ExpectedRecord(fields, SampleSchema);
  }

  /** Inserting the pairs in order is inserting the last pair into the object of the others. */
  lemma ObjectOfPrefix(p: seq<(string, J.Json)>, k: nat)
    requires 0 < k <= |p|
    ensures J.ObjectOf(p[..k]) == J.ObjectOf(p[..k - 1])[p[k - 1].0 := p[k - 1].1]
  {
    assert p[..k][..k - 1] == p[..k - 1];
  }

  lemma SampleObject(floatBits: nat, doubleBits: nat)
    ensures J.Object(J.ObjectOf(SamplePairs(floatBits, doubleBits))) == SampleJson(floatBits, doubleBits)
  {
    var p := SamplePairs(floatBits, doubleBits);
    var m0: map<string, J.Json> := map[];
    assert J.ObjectOf(p[..0]) == m0;
    var m1 := m0[p[0].0 := p[0].1];
    assert J.ObjectOf(p[..1]) == m1 by { ObjectOfPrefix(p, 1); }
    var m2 := m1[p[1].0 := p[1].1];
    assert J.ObjectOf(p[..2]) == m2 by { ObjectOfPrefix(p, 2); }
    var m3 := m2[p[2].0 := p[2].1];
    assert J.ObjectOf(p[..3]) == m3 by { ObjectOfPrefix(p, 3); }
    var m4 := m3[p[3].0 := p[3].1];
    assert J.ObjectOf(p[..4]) == m4 by { ObjectOfPrefix(p, 4); }
    var m5 := m4[p[4].0 := p[4].1];
    assert J.ObjectOf(p[..5]) == m5 by { ObjectOfPrefix(p, 5); }
    var m6 := m5[p[5].0 := p[5].1];
    assert J.ObjectOf(p[..6]) == m6 by { ObjectOfPrefix(p, 6); }
    var m7 := m6[p[6].0 := p[6].1];
    assert J.ObjectOf(p[..7]) == m7 by { ObjectOfPrefix(p, 7); }
    var m8 := m7[p[7].0 := p[7].1];
    assert J.ObjectOf(p[..8]) == m8 by { ObjectOfPrefix(p, 8); }
    assert p[..8] == p;
  }

  /**
   * The simple-types test: a payload with schema id 0 whose datum decodes to
   * the sample record gives the object with the eight fields, bytes as the
   * array [1, 2, 170].
   */
  lemma SimpleTypesParsing(datum: seq<byte>, registry: Registry, decode: Decoder, floatBits: nat, doubleBits: nat)
    requires |datum| >= 1
    requires registry(0) == Ok(SampleSchema)
    requires decode(SampleSchema, datum) == Ok(SampleValue(floatBits, doubleBits))
    ensures ParsePayload([0x00, 0x00, 0x00, 0x00, 0x00] + datum, registry, decode) == Ok(SampleJson(floatBits, doubleBits))
  {
    var raw: seq<byte> := [0x00, 0x00, 0x00, 0x00, 0x00] + datum;
    var id := raw[1..HeaderLength];
    assert id == [0, 0, 0, 0];
    UnsignedOfZeros(id);
    assert raw[HeaderLength..] == datum;
    var v := SampleValue(floatBits, doubleBits);
    SampleFits(floatBits, doubleBits);
    MapsAsExpected(v, SampleSchema, map[]);
    SampleExpected(floatBits, doubleBits);
    SampleObject(floatBits, doubleBits);
  }

  const NodeName := S.Name("Node", None)

  /** The type of a node's `next` field: null, or a reference to the node record itself. */
  const NextSchema := S.Union([S.Null, S.Ref(NodeName)])

  /** A linked-list node: a record whose `next` field refers back to the record by name. */
  const NodeSchema := S.Record(NodeName,
    [S.RecordField("value", S.Int), S.RecordField("next", NextSchema)],
    map["value" := 0, "next" := 1])

  function Node(value: int, next: V.Value): V.Value
  {
    V.Record([V.Entry("value", V.Int(value)), V.Entry("next", next)])
  }

  function NodeJson(value: int, next: J.Json): J.Json
  {
    J.Object(map["value" := J.Int(value), "next" := next])
  }

  /** A known field that maps without touching the cache adds its pair in front of the rest. */
  lemma FieldStep(fields: seq<V.Entry>, rec: S.Schema, cache: Cache, j: J.Json)
    requires rec.Record? && CacheWf(cache) && |fields| >= 1
    ensures FieldKnown(fields[0], rec) && MapValue(fields[0].value, FieldSchema(fields[0], rec), cache) == Ok(Mapped(j, cache))
            && MapFields(fields[1..], rec, cache).Ok? ==>
              MapFields(fields, rec, cache)
              == Ok(MappedPairs([(fields[0].key, j)] + MapFields(fields[1..], rec, cache).value.pairs,
                                MapFields(fields[1..], rec, cache).value.cache))
  {
  }

  /** A record with two known fields, each mapping without touching the cache, maps to their two pairs. */
  lemma TwoFields(rec: S.Schema, e1: V.Entry, e2: V.Entry, cache: Cache, j1: J.Json, j2: J.Json)
    requires rec.Record? && CacheWf(cache)
    requires FieldKnown(e1, rec) && MapValue(e1.value, FieldSchema(e1, rec), cache) == Ok(Mapped(j1, cache))
    requires FieldKnown(e2, rec) && MapValue(e2.value, FieldSchema(e2, rec), cache) == Ok(Mapped(j2, cache))
    ensures MapFields([e1, e2], rec, cache) == Ok(MappedPairs([(e1.key, j1), (e2.key, j2)], cache))
  {
    var two := [e1, e2];
    var one := two[1..];
    assert one == [e2];
    assert MapFields(one[1..], rec, cache) == Ok(MappedPairs([], cache));
    FieldStep(one, rec, cache, j2);
    var r1 := MapFields(one, rec, cache);
    assert r1.value.pairs == [(one[0].key, j2)] + [];
    assert r1.value.pairs == [(e2.key, j2)];
    assert MapFields(one, rec, cache) == Ok(MappedPairs([(e2.key, j2)], cache));
    FieldStep(two, rec, cache, j1);
    var r2 := MapFields(two, rec, cache);
    assert r2.value.pairs == [(two[0].key, j1)] + [(e2.key, j2)];
    assert r2.value.pairs == [(e1.key, j1), (e2.key, j2)];
  }

  /** A record whose fields map registers itself and gives the object of the field pairs. */
  lemma RecordStep(fields: seq<V.Entry>, rec: S.Schema, cache: Cache)
    requires rec.Record? && CacheWf(cache)
    requires MapFields(fields, rec, cache[rec.name := rec]).Ok?
    ensures MapValue(V.Record(fields), rec, cache)
         == Ok(Mapped(J.Object(J.ObjectOf(MapFields(fields, rec, cache[rec.name := rec]).value.pairs)),
                      MapFields(fields, rec, cache[rec.name := rec]).value.cache))
  {
    var m := MapFields(fields, rec, cache[rec.name := rec]);
    assert MapValue(V.Record(fields), rec, cache)
        == (match m
            case Err(p) => Err(p)
            case Ok(x) => Ok(Mapped(J.Object(J.ObjectOf(x.pairs)), x.cache)));
  }

  /** The object of the two pairs of a node. */
  lemma NodeObject(value: int, nextJson: J.Json)
    ensures J.ObjectOf([("value", J.Int(value)), ("next", nextJson)]) == map["value" := J.Int(value), "next" := nextJson]
  {
    var p := [("value", J.Int(value)), ("next", nextJson)];
    ObjectOfPrefix(p, 2);
    ObjectOfPrefix(p, 1);
    assert p[..2] == p;
  }

  /** One node maps to its object once its `next` field does, with the node schema registered. */
  lemma NodeStep(value: int, next: V.Value, cache: Cache, nextJson: J.Json)
    requires CacheWf(cache)
    requires MapValue(next, NextSchema, cache[NodeName := NodeSchema]) == Ok(Mapped(nextJson, cache[NodeName := NodeSchema]))
    ensures MapValue(Node(value, next), NodeSchema, cache) == Ok(Mapped(NodeJson(value, nextJson), cache[NodeName := NodeSchema]))
  {
    var rec := NodeSchema;
    var c := cache[NodeName := rec];
    var e1, e2 := V.Entry("value", V.Int(value)), V.Entry("next", next);
    assert FieldKnown(e1, rec) && FieldSchema(e1, rec) == S.Int;
    assert FieldKnown(e2, rec) && FieldSchema(e2, rec) == NextSchema;
    assert MapValue(e1.value, S.Int, c) == Ok(Mapped(J.Int(value), c));
    TwoFields(rec, e1, e2, c, J.Int(value), nextJson);
    RecordStep([e1, e2], rec, cache);
    NodeObject(value, nextJson);
  }

  /**
   * A two-node list: the inner node is typed by a reference to the record
   * being mapped, which resolves because the outer record registered its
   * name first.  The same reference with nothing registered panics.
   */
  lemma RecursiveReference()
    ensures MapValue(Node(1, V.Union(1, Node(2, V.Union(0, V.Null)))), NodeSchema, map[])
         == Ok(Mapped(NodeJson(1, NodeJson(2, J.Null)), map[NodeName := NodeSchema]))
    ensures MapValue(Node(2, V.Union(0, V.Null)), S.Ref(NodeName), map[]) == Err(Panic(MissingReference))
  {
    var c: Cache := map[NodeName := NodeSchema];
    assert RegisterRecords(c, NextSchema.variants) == c;
    assert MapValue(V.Union(0, V.Null), NextSchema, c) == Ok(Mapped(J.Null, c));
    assert c[NodeName := NodeSchema] == c;
    NodeStep(2, V.Union(0, V.Null), c, J.Null);
    var inner := Node(2, V.Union(0, V.Null));
    assert MapValue(inner, S.Ref(NodeName), c) == MapValue(inner, NodeSchema, c);
    assert MapValue(V.Union(1, inner), NextSchema, c) == Ok(Mapped(NodeJson(2, J.Null), c));
    var empty: Cache := map[];
    assert empty[NodeName := NodeSchema] == c;
    NodeStep(1, V.Union(1, inner), empty, NodeJson(2, J.Null));
  }

  /** The environment of the list schemas: the node record bound under its own name. */
  const NodeEnv: Cache := map[NodeName := NodeSchema]

  /** The `next` field of a node followed by the nodes holding `values`, in order. */
  function NextOf(values: seq<int>): V.Value
  {
    if |values| == 0 then V.Union(0, V.Null)
    else V.Union(1, Node(values[0], NextOf(values[1..])))
  }

  /** The JSON the nodes holding `values` become: nested node objects ending in null. */
  function ChainJson(values: seq<int>): J.Json
  {
    if |values| == 0 then J.Null
    else NodeJson(values[0], ChainJson(values[1..]))
  }

  /** A node fits the node schema once its `next` field fits, and its tree is the node object. */
  lemma NodeFitsIn(value: int, next: V.Value)
    requires FitsIn(next, NextSchema, NodeEnv)
    ensures FitsIn(Node(value, next), NodeSchema, NodeEnv)
    ensures ExpectedIn(Node(value, next), NodeSchema, NodeEnv) == NodeJson(value, ExpectedIn(next, NextSchema, NodeEnv))
  {
    var fields := Node(value, next).fields;
    assert FieldKnown(fields[0], NodeSchema) && FieldSchema(fields[0], NodeSchema) == S.Int;
    assert FieldKnown(fields[1], NodeSchema) && FieldSchema(fields[1], NodeSchema) == NextSchema;
    assert FitsIn(Node(value, next), NodeSchema, NodeEnv);
    ExpectedFieldPairsElements(fields, NodeSchema, NodeEnv);
    var pairs := ExpectedFieldPairs(fields, NodeSchema, NodeEnv);
    assert pairs == [("value", J.Int(value)), ("next", ExpectedIn(next, NextSchema, NodeEnv))];
    NodeObject(value, ExpectedIn(next, NextSchema, NodeEnv));
  }

  /**
   * Every chain of nodes fits the `next` schema with the node record bound,
   * each inner node reached through the reference, and its tree is the
   * nested node objects.
   */
  lemma {:induction false} ChainFitsIn(values: seq<int>)
    ensures FitsIn(NextOf(values), NextSchema, NodeEnv)
    ensures ExpectedIn(NextOf(values), NextSchema, NodeEnv) == ChainJson(values)
  {
    if |values| > 0 {
      ChainFitsIn(values[1..]);
      NodeFitsIn(values[0], NextOf(values[1..]));
      NextNodeFitsIn(Node(values[0], NextOf(values[1..])));
    }
  }

  /** A `next` field holding a node fits through the reference, and its tree is the node's. */
  lemma NextNodeFitsIn(node: V.Value)
    requires FitsIn(node, NodeSchema, NodeEnv)
    ensures FitsIn(V.Union(1, node), NextSchema, NodeEnv)
    ensures ExpectedIn(V.Union(1, node), NextSchema, NodeEnv) == ExpectedIn(node, NodeSchema, NodeEnv)
  {
    assert FitsIn(node, S.Ref(NodeName), NodeEnv);
    assert ExpectedIn(node, S.Ref(NodeName), NodeEnv) == ExpectedIn(node, NodeSchema, NodeEnv);
  }

  /**
   * A list of any length maps, from an empty cache, to its nested node
   * objects: the outer record registers its name, and every inner node is
   * resolved through the reference.
   */
  lemma ListMaps(value: int, rest: seq<int>)
    ensures MapValue(Node(value, NextOf(rest)), NodeSchema, map[]).Ok?
    ensures MapValue(Node(value, NextOf(rest)), NodeSchema, map[]).value.json == NodeJson(value, ChainJson(rest))
  {
    ChainFitsIn(rest);
    NodeFitsIn(value, NextOf(rest));
    var empty: Cache := map[];
    assert empty[NodeName := NodeSchema] == NodeEnv;
    RecordMapsAsExpectedIn(Node(value, NextOf(rest)).fields, NodeSchema, empty, NodeEnv);
  }
}
