/**
 * What the Avro-to-JSON mapper computes, stated against independent
 * definitions: `FitsIn` says when a value can be read under a schema whose
 * references stand for the named schemas of an environment, and `ExpectedIn`
 * says, without any cache, which JSON tree it then becomes; `Fits` and
 * `Expected` are the reference-free case of an empty environment.  The laws below connect `MapValue` to both, and state
 * the one-step behaviour of unions, references, decimals and named types.
 */
module AvroJsonLaws {
  import opened Wrappers
  import opened Ints
  import opened Decimals
  import opened AvroJson
  import V = AvroValues
  import S = AvroSchemas
  import J = JsonValues

  /** The mapper has an arm for the pair: value and schema are of the same kind. */
  predicate SameKind(v: V.Value, s: S.Schema)
  {
    match v
    case Null => s.Null?
    case Boolean(_) => s.Boolean?
    case Int(_) => s.Int?
    case Long(_) => s.Long?
    case Float(_) => s.Float?
    case Double(_) => s.Double?
    case String(_) => s.String?
    case Array(_) => s.Array?
    case Map(_) => s.Map?
    case Record(_) => s.Record?
    case Date(_) => s.Date?
    case TimeMillis(_) => s.TimeMillis?
    case TimeMicros(_) => s.TimeMicros?
    case TimestampMillis(_) => s.TimestampMillis?
    case TimestampMicros(_) => s.TimestampMicros?
    case Uuid(_) => s.Uuid?
    case Bytes(_) => s.Bytes?
    case Decimal(_) => s.Decimal?
    case Duration(_, _, _) => s.Duration?
    case Union(_, _) => s.Union?
    case Enum(_, _) => s.Enum?
    case Fixed(_, _) => s.Fixed?
  }

  /** Record field `f` names a field of `rec` through `lookup`, and that field exists. */
  predicate FieldKnown(f: V.Entry, rec: S.Schema)
    requires rec.Record?
  {
    f.key in rec.lookup && rec.lookup[f.key] < |rec.fields|
  }

  /** The schema of the record field that `f` names. */
  function FieldSchema(f: V.Entry, rec: S.Schema): S.Schema
    requires rec.Record? && FieldKnown(f, rec)
  {
    rec.fields[rec.lookup[f.key]].schema
  }

  /** Every name `env` binds is bound in `cache` to the same schema. */
  predicate Binds(cache: Cache, env: Cache)
  {
    forall n :: n in env ==> n in cache && cache[n] == env[n]
  }

  /** The named schema `s` does not clash with what `env` binds under its name. */
  predicate Consistent(s: S.Schema, env: Cache)
    requires s.IsNamed()
  {
    s.name in env ==> env[s.name] == s
  }

  /** Every record variant of a union is consistent with `env`. */
  predicate VariantsConsistent(variants: seq<S.Schema>, env: Cache)
  {
    forall i :: 0 <= i < |variants| && variants[i].Record? ==> Consistent(variants[i], env)
  }

  /**
   * `v` can be read under `s` when each `Ref(n)` stands for the named schema
   * `env` binds to `n`: every node is of its schema's kind, every union branch
   * and record field exists, every decimal fits `i64` with a scale
   * `Decimal::new` accepts, every referenced name is bound, and every named
   * schema met on the way agrees with `env`.
   */
  predicate FitsIn(v: V.Value, s: S.Schema, env: Cache)
    requires CacheWf(env)
    decreases v, if s.Ref? then 1 else 0
  {
    if s.Ref? then s.name in env && FitsIn(v, env[s.name], env)
    else
      SameKind(v, s) &&
      match v
      case Array(items) => forall i :: 0 <= i < |items| ==> FitsIn(items[i], s.items, env)
      case Map(entries) => forall i :: 0 <= i < |entries| ==> FitsIn(entries[i].value, s.values, env)
      case Record(fields) =>
        Consistent(s, env) &&
        forall i :: 0 <= i < |fields| ==> FieldKnown(fields[i], s) && FitsIn(fields[i].value, FieldSchema(fields[i], s), env)
      case Decimal(unscaled) => IsI64(Signed(unscaled)) && DecimalScale(s.scale) <= MaxScale
      case Union(branch, inner) =>
        VariantsConsistent(s.variants, env) && branch < |s.variants| && FitsIn(inner, s.variants[branch], env)
      case Enum(_, _) => Consistent(s, env)
      case Fixed(_, _) => Consistent(s, env)
      case _ => true
  }

  /**
   * The JSON tree of a value fitting `s` under `env`, defined node by node:
   * a reference is read as the schema `env` binds to its name, and no cache
   * is threaded.
   */
  function ExpectedIn(v: V.Value, s: S.Schema, env: Cache): J.Json
    requires CacheWf(env)
    requires FitsIn(v, s, env)
    decreases V.Size(v), if s.Ref? then 1 else 0
  {
    if s.Ref? then ExpectedIn(v, env[s.name], env)
    else
      match v
      case Null => J.Null
      case Boolean(b) => J.Bool(b)
      case Int(i) => J.Int(i)
      case Long(l) => J.Int(l)
      case Float(bits) => J.FromFloat(J.Single(bits))
      case Double(bits) => J.FromFloat(J.Double(bits))
      case String(text) => J.String(text)
      case Array(items) => J.Array(ExpectedJsons(items, s.items, env))
      case Map(entries) => J.Object(J.ObjectOf(ExpectedPairs(entries, s.values, env)))
      case Record(fields) => J.Object(J.ObjectOf(ExpectedFieldPairs(fields, s, env)))
      case Date(days) => J.Int(days)
      case TimeMillis(t) => J.Int(t)
      case TimeMicros(t) => J.Int(t)
      case TimestampMillis(t) => J.Int(t)
      case TimestampMicros(t) => J.Int(t)
      case Uuid(text) => J.String(text)
      case Bytes(bs) => BytesJson(bs)
      case Decimal(unscaled) => J.String(DecimalText(Signed(unscaled), DecimalScale(s.scale)))
      case Duration(months, days, millis) => J.String(DurationText(months, days, millis))
      case Union(branch, inner) => ExpectedIn(inner, s.variants[branch], env)
      case Enum(_, symbol) => J.String(symbol)
      case Fixed(_, bs) => BytesJson(bs)
  }

  /**
   * `v` can be read under `s` with no reference on the way: the case of an
   * empty environment, where every `Ref` fails to fit.
   */
  predicate Fits(v: V.Value, s: S.Schema)
  {
    FitsIn(v, s, map[])
  }

  /** The JSON tree of a value fitting a schema without references. */
  function Expected(v: V.Value, s: S.Schema): J.Json
    requires Fits(v, s)
  {
    ExpectedIn(v, s, map[])
  }

  /** A fitting record, read with no references: its fields fit, and its tree is the object of their trees. */
  lemma ExpectedRecord(fields: seq<V.Entry>, s: S.Schema)
    requires Fits(V.Record(fields), s)
    ensures s.Record?
    ensures forall i :: 0 <= i < |fields| ==> FieldKnown(fields[i], s) && Fits(fields[i].value, FieldSchema(fields[i], s))
    ensures Expected(V.Record(fields), s) == J.Object(J.ObjectOf(ExpectedFieldPairs(fields, s, map[])))
    ensures forall i :: 0 <= i < |fields| ==>
      ExpectedFieldPairs(fields, s, map[])[i] == (fields[i].key, Expected(fields[i].value, FieldSchema(fields[i], s)))
  {
    var env: Cache := map[];
    assert FitsIn(V.Record(fields), s, env);
    assert s.Record?;
    ExpectedFieldPairsElements(fields, s, env);
    assert Expected(V.Record(fields), s) == ExpectedIn(V.Record(fields), s, env);
  }

  /** A fitting map, read with no references: its values fit, and its tree is the object of their trees. */
  lemma ExpectedMap(entries: seq<V.Entry>, s: S.Schema)
    requires Fits(V.Map(entries), s)
    ensures s.Map?
    ensures forall i :: 0 <= i < |entries| ==> Fits(entries[i].value, s.values)
    ensures Expected(V.Map(entries), s) == J.Object(J.ObjectOf(ExpectedPairs(entries, s.values, map[])))
    ensures forall i :: 0 <= i < |entries| ==>
      ExpectedPairs(entries, s.values, map[])[i] == (entries[i].key, Expected(entries[i].value, s.values))
  {
    var env: Cache := map[];
    assert FitsIn(V.Map(entries), s, env);
    assert s.Map?;
    assert forall i :: 0 <= i < |entries| ==> FitsIn(entries[i].value, s.values, env);
    ExpectedPairsElements(entries, s.values, env);
    assert Expected(V.Map(entries), s) == ExpectedIn(V.Map(entries), s, env);
  }

  /** A fitting union value, read with no references: its branch exists, and its tree is that of the inner value. */
  lemma ExpectedUnion(branch: nat, inner: V.Value, s: S.Schema)
    requires Fits(V.Union(branch, inner), s)
    ensures s.Union? && branch < |s.variants|
    ensures Fits(inner, s.variants[branch])
    ensures Expected(V.Union(branch, inner), s) == Expected(inner, s.variants[branch])
  {
  }

  /** Registering the record variants of a union keeps every binding of `env` it agrees with. */
  lemma {:induction false} RegisterKeepsBinds(cache: Cache, variants: seq<S.Schema>, env: Cache)
    requires CacheWf(cache)
    requires Binds(cache, env)
    requires VariantsConsistent(variants, env)
    ensures Binds(RegisterRecords(cache, variants), env)
    decreases |variants|
  {
    if |variants| > 0 {
      var next := if variants[0].Record? then cache[variants[0].name := variants[0]] else cache;
      var tail := variants[1..];
      assert Binds(RegisterRecords(next, tail), env) by {
        if variants[0].Record? {
          UpdateKeepsBinds(cache, variants[0], env);
        }
        assert forall k :: 0 <= k < |tail| ==> tail[k] == variants[k + 1];
        RegisterKeepsBinds(next, tail, env);
      }
      assert RegisterRecords(cache, variants) == RegisterRecords(next, tail);
    }
  }

  /** Registering a named schema that agrees with `env` keeps every binding of `env`. */
  lemma UpdateKeepsBinds(cache: Cache, s: S.Schema, env: Cache)
    requires s.IsNamed() && Binds(cache, env) && Consistent(s, env)
    ensures Binds(cache[s.name := s], env)
  {
  }

  /**
   * A value fitting `s` under `env` maps, from any well-formed cache that
   * binds every name `env` binds, to its expected JSON tree, and the cache it
   * hands on still binds them.
   */
  lemma {:induction false} MapsAsExpectedIn(v: V.Value, s: S.Schema, cache: Cache, env: Cache)
    requires CacheWf(cache) && CacheWf(env)
    requires Binds(cache, env)
    requires FitsIn(v, s, env)
    ensures MapValue(v, s, cache).Ok?
    ensures MapValue(v, s, cache).value.json == ExpectedIn(v, s, env)
    ensures Binds(MapValue(v, s, cache).value.cache, env)
    decreases V.Size(v), if s.Ref? then 1 else 0, 1
  {
    if s.Ref? {
      RefMapsAsExpected(v, s, cache, env);
    } else if v.Array? || v.Map? {
      CollectionMapsAsExpected(v, s, cache, env);
    } else if v.Record? {
      RecordMapsAsExpected(v, s, cache, env);
    } else if v.Union? {
      UnionMapsAsExpected(v, s, cache, env);
    } else {
      LeafMapsAsExpected(v, s, cache, env);
    }
  }

  lemma {:induction false} RefMapsAsExpected(v: V.Value, s: S.Schema, cache: Cache, env: Cache)
    requires CacheWf(cache) && CacheWf(env)
    requires Binds(cache, env)
    requires s.Ref? && FitsIn(v, s, env)
    ensures MapValue(v, s, cache).Ok?
    ensures MapValue(v, s, cache).value.json == ExpectedIn(v, s, env)
    ensures Binds(MapValue(v, s, cache).value.cache, env)
    decreases V.Size(v), 1, 0
  {
    assert MapValue(v, s, cache) == MapValue(v, env[s.name], cache);
    assert ExpectedIn(v, s, env) == ExpectedIn(v, env[s.name], env);
    MapsAsExpectedIn(v, env[s.name], cache, env);
  }

  lemma {:induction false} CollectionMapsAsExpected(v: V.Value, s: S.Schema, cache: Cache, env: Cache)
    requires CacheWf(cache) && CacheWf(env)
    requires Binds(cache, env)
    requires !s.Ref? && (v.Array? || v.Map?) && FitsIn(v, s, env)
    ensures MapValue(v, s, cache).Ok?
    ensures MapValue(v, s, cache).value.json == ExpectedIn(v, s, env)
    ensures Binds(MapValue(v, s, cache).value.cache, env)
    decreases V.Size(v), 0, 0
  {
    if v.Array? {
      var items := v.items;
      assert s.Array? && forall i :: 0 <= i < |items| ==> FitsIn(items[i], s.items, env);
      ItemsMapToJsons(items, s.items, cache, env);
      var m := MapItems(items, s.items, cache).value;
      assert MapValue(v, s, cache) == Ok(Mapped(J.Array(m.jsons), m.cache));
    } else {
      var entries := v.entries;
      assert s.Map? && forall i :: 0 <= i < |entries| ==> FitsIn(entries[i].value, s.values, env);
      EntriesMapToPairs(entries, s.values, cache, env);
      var m := MapEntries(entries, s.values, cache).value;
      assert MapValue(v, s, cache) == Ok(Mapped(J.Object(J.ObjectOf(m.pairs)), m.cache));
    }
  }

  lemma {:induction false} RecordMapsAsExpected(v: V.Value, s: S.Schema, cache: Cache, env: Cache)
    requires CacheWf(cache) && CacheWf(env)
    requires Binds(cache, env)
    requires !s.Ref? && v.Record? && FitsIn(v, s, env)
    ensures MapValue(v, s, cache).Ok?
    ensures MapValue(v, s, cache).value.json == ExpectedIn(v, s, env)
    ensures Binds(MapValue(v, s, cache).value.cache, env)
    decreases V.Size(v), 0, 0
  {
    var fields := v.fields;
    assert s.Record? && Consistent(s, env);
    var c := cache[s.name := s];
    assert Binds(c, env);
    FieldsAsExpected(fields, s, c, env);
    var m := MapFields(fields, s, c).value;
    assert MapValue(v, s, cache) == Ok(Mapped(J.Object(J.ObjectOf(m.pairs)), m.cache));
  }

  lemma {:induction false} UnionMapsAsExpected(v: V.Value, s: S.Schema, cache: Cache, env: Cache)
    requires CacheWf(cache) && CacheWf(env)
    requires Binds(cache, env)
    requires !s.Ref? && v.Union? && FitsIn(v, s, env)
    ensures MapValue(v, s, cache).Ok?
    ensures MapValue(v, s, cache).value.json == ExpectedIn(v, s, env)
    ensures Binds(MapValue(v, s, cache).value.cache, env)
    decreases V.Size(v), 0, 0
  {
    assert s.Union? && VariantsConsistent(s.variants, env) && v.branch < |s.variants|;
    RegisterKeepsBinds(cache, s.variants, env);
    var c := RegisterRecords(cache, s.variants);
    assert MapValue(v, s, cache) == MapValue(v.inner, s.variants[v.branch], c);
    assert ExpectedIn(v, s, env) == ExpectedIn(v.inner, s.variants[v.branch], env);
    MapsAsExpectedIn(v.inner, s.variants[v.branch], c, env);
  }

  lemma LeafMapsAsExpected(v: V.Value, s: S.Schema, cache: Cache, env: Cache)
    requires CacheWf(cache) && CacheWf(env)
    requires Binds(cache, env)
    requires !s.Ref? && !v.Array? && !v.Map? && !v.Record? && !v.Union? && FitsIn(v, s, env)
    ensures MapValue(v, s, cache).Ok?
    ensures MapValue(v, s, cache).value.json == ExpectedIn(v, s, env)
    ensures Binds(MapValue(v, s, cache).value.cache, env)
  {
    if v.Enum? || v.Fixed? {
      assert Binds(cache[s.name := s], env);
    }
  }

  /**
   * A record fitting `s` under `env` maps to its expected tree from any cache
   * that binds `env`'s names once the record itself is registered, which is
   * how a top-level self-referencing record maps from an empty cache.
   */
  lemma RecordMapsAsExpectedIn(fields: seq<V.Entry>, s: S.Schema, cache: Cache, env: Cache)
    requires CacheWf(cache) && CacheWf(env)
    requires s.Record? && Binds(cache[s.name := s], env)
    requires FitsIn(V.Record(fields), s, env)
    ensures MapValue(V.Record(fields), s, cache).Ok?
    ensures MapValue(V.Record(fields), s, cache).value.json == ExpectedIn(V.Record(fields), s, env)
  {
    var c := cache[s.name := s];
    FieldsAsExpected(fields, s, c, env);
  }

  /** A value fitting a reference-free reading maps, from any well-formed cache, to its expected JSON tree. */
  lemma MapsAsExpected(v: V.Value, s: S.Schema, cache: Cache)
    requires CacheWf(cache)
    requires Fits(v, s)
    ensures MapValue(v, s, cache).Ok?
    ensures MapValue(v, s, cache).value.json == Expected(v, s)
  {
    MapsAsExpectedIn(v, s, cache, map[]);
  }

  /** The expected trees of an array's items, in order. */
  function ExpectedJsons(items: seq<V.Value>, s: S.Schema, env: Cache): (r: seq<J.Json>)
    requires CacheWf(env)
    requires forall i :: 0 <= i < |items| ==> FitsIn(items[i], s, env)
    ensures |r| == |items|
    decreases V.ItemsSize(items), 2
  {
    if |items| == 0 then []
    else
      assert forall k :: 0 <= k < |items| - 1 ==> items[1..][k] == items[k + 1];
      [ExpectedIn(items[0], s, env)] + ExpectedJsons(items[1..], s, env)
  }

  lemma {:induction false} ExpectedJsonsElements(items: seq<V.Value>, s: S.Schema, env: Cache)
    requires CacheWf(env)
    requires forall i :: 0 <= i < |items| ==> FitsIn(items[i], s, env)
    ensures forall i :: 0 <= i < |items| ==> ExpectedJsons(items, s, env)[i] == ExpectedIn(items[i], s, env)
  {
    if |items| > 0 {
      var tail := items[1..];
      assert forall k :: 0 <= k < |tail| ==> tail[k] == items[k + 1];
      ExpectedJsonsElements(tail, s, env);
    }
  }

  lemma {:induction false} ItemsMapToJsons(items: seq<V.Value>, s: S.Schema, cache: Cache, env: Cache)
    requires CacheWf(cache) && CacheWf(env)
    requires Binds(cache, env)
    requires forall i :: 0 <= i < |items| ==> FitsIn(items[i], s, env)
    ensures MapItems(items, s, cache).Ok? && MapItems(items, s, cache).value.jsons == ExpectedJsons(items, s, env)
    ensures Binds(MapItems(items, s, cache).value.cache, env)
    decreases V.ItemsSize(items), 2, 0
  {
    if |items| > 0 {
      MapsAsExpectedIn(items[0], s, cache, env);
      ItemsTailMapToJsons(items, s, cache, env);
    }
  }

  /** The tail of the items maps from the cache the head hands on, which completes the loop. */
  lemma {:induction false} ItemsTailMapToJsons(items: seq<V.Value>, s: S.Schema, cache: Cache, env: Cache)
    requires CacheWf(cache) && CacheWf(env) && |items| > 0
    requires forall i :: 0 <= i < |items| ==> FitsIn(items[i], s, env)
    requires MapValue(items[0], s, cache).Ok? && MapValue(items[0], s, cache).value.json == ExpectedIn(items[0], s, env)
    requires Binds(MapValue(items[0], s, cache).value.cache, env)
    ensures MapItems(items, s, cache).Ok? && MapItems(items, s, cache).value.jsons == ExpectedJsons(items, s, env)
    ensures Binds(MapItems(items, s, cache).value.cache, env)
    decreases V.ItemsSize(items), 1, 0
  {
    var first := MapValue(items[0], s, cache).value;
    var tail := items[1..];
    assert forall k :: 0 <= k < |tail| ==> tail[k] == items[k + 1];
    ItemsMapToJsons(tail, s, first.cache, env);
    ItemsStep(items, s, cache, env);
  }

  /** One step of the loop over an array's items: the head's tree, then the tail's, from the cache the head hands on. */
  lemma ItemsStep(items: seq<V.Value>, s: S.Schema, cache: Cache, env: Cache)
    requires CacheWf(cache) && CacheWf(env) && |items| > 0
    requires forall i :: 0 <= i < |items| ==> FitsIn(items[i], s, env)
    requires MapValue(items[0], s, cache).Ok? && MapValue(items[0], s, cache).value.json == ExpectedIn(items[0], s, env)
    requires var c := MapValue(items[0], s, cache).value.cache;
      MapItems(items[1..], s, c).Ok? && MapItems(items[1..], s, c).value.jsons == ExpectedJsons(items[1..], s, env)
    ensures MapItems(items, s, cache).Ok? && MapItems(items, s, cache).value.jsons == ExpectedJsons(items, s, env)
    ensures MapItems(items, s, cache).value.cache == MapItems(items[1..], s, MapValue(items[0], s, cache).value.cache).value.cache
  {
  }

  /** The expected pairs of a map's entries: each key with the expected tree of its value, in order. */
  function ExpectedPairs(entries: seq<V.Entry>, s: S.Schema, env: Cache): (r: seq<(string, J.Json)>)
    requires CacheWf(env)
    requires forall i :: 0 <= i < |entries| ==> FitsIn(entries[i].value, s, env)
    ensures |r| == |entries|
    decreases V.EntriesSize(entries), 2
  {
    if |entries| == 0 then []
    else
      assert forall k :: 0 <= k < |entries| - 1 ==> entries[1..][k] == entries[k + 1];
      [(entries[0].key, ExpectedIn(entries[0].value, s, env))] + ExpectedPairs(entries[1..], s, env)
  }

  lemma {:induction false} ExpectedPairsElements(entries: seq<V.Entry>, s: S.Schema, env: Cache)
    requires CacheWf(env)
    requires forall i :: 0 <= i < |entries| ==> FitsIn(entries[i].value, s, env)
    ensures forall i :: 0 <= i < |entries| ==>
      ExpectedPairs(entries, s, env)[i] == (entries[i].key, ExpectedIn(entries[i].value, s, env))
  {
    if |entries| > 0 {
      var tail := entries[1..];
      assert forall k :: 0 <= k < |tail| ==> tail[k] == entries[k + 1];
      ExpectedPairsElements(tail, s, env);
    }
  }

  lemma {:induction false} EntriesMapToPairs(entries: seq<V.Entry>, s: S.Schema, cache: Cache, env: Cache)
    requires CacheWf(cache) && CacheWf(env)
    requires Binds(cache, env)
    requires forall i :: 0 <= i < |entries| ==> FitsIn(entries[i].value, s, env)
    ensures MapEntries(entries, s, cache).Ok? && MapEntries(entries, s, cache).value.pairs == ExpectedPairs(entries, s, env)
    ensures Binds(MapEntries(entries, s, cache).value.cache, env)
    decreases V.EntriesSize(entries), 2, 0
  {
    if |entries| > 0 {
      MapsAsExpectedIn(entries[0].value, s, cache, env);
      EntriesTailMapToPairs(entries, s, cache, env);
    }
  }

  /** The tail of the entries maps from the cache the head hands on, which completes the loop. */
  lemma {:induction false} EntriesTailMapToPairs(entries: seq<V.Entry>, s: S.Schema, cache: Cache, env: Cache)
    requires CacheWf(cache) && CacheWf(env) && |entries| > 0
    requires forall i :: 0 <= i < |entries| ==> FitsIn(entries[i].value, s, env)
    requires MapValue(entries[0].value, s, cache).Ok?
    requires MapValue(entries[0].value, s, cache).value.json == ExpectedIn(entries[0].value, s, env)
    requires Binds(MapValue(entries[0].value, s, cache).value.cache, env)
    ensures MapEntries(entries, s, cache).Ok? && MapEntries(entries, s, cache).value.pairs == ExpectedPairs(entries, s, env)
    ensures Binds(MapEntries(entries, s, cache).value.cache, env)
    decreases V.EntriesSize(entries), 1, 0
  {
    var first := MapValue(entries[0].value, s, cache).value;
    var tail := entries[1..];
    assert forall k :: 0 <= k < |tail| ==> tail[k] == entries[k + 1];
    EntriesMapToPairs(tail, s, first.cache, env);
    EntriesStep(entries, s, cache, env);
  }

  /** One step of the loop over a map's entries: the head's pair, then the tail's, from the cache the head hands on. */
  lemma EntriesStep(entries: seq<V.Entry>, s: S.Schema, cache: Cache, env: Cache)
    requires CacheWf(cache) && CacheWf(env) && |entries| > 0
    requires forall i :: 0 <= i < |entries| ==> FitsIn(entries[i].value, s, env)
    requires MapValue(entries[0].value, s, cache).Ok?
    requires MapValue(entries[0].value, s, cache).value.json == ExpectedIn(entries[0].value, s, env)
    requires var c := MapValue(entries[0].value, s, cache).value.cache;
      MapEntries(entries[1..], s, c).Ok? && MapEntries(entries[1..], s, c).value.pairs == ExpectedPairs(entries[1..], s, env)
    ensures MapEntries(entries, s, cache).Ok? && MapEntries(entries, s, cache).value.pairs == ExpectedPairs(entries, s, env)
    ensures MapEntries(entries, s, cache).value.cache
         == MapEntries(entries[1..], s, MapValue(entries[0].value, s, cache).value.cache).value.cache
  {
  }

  lemma EntriesAsExpected(entries: seq<V.Entry>, s: S.Schema, cache: Cache, env: Cache)
    requires CacheWf(cache) && CacheWf(env)
    requires Binds(cache, env)
    requires forall i :: 0 <= i < |entries| ==> FitsIn(entries[i].value, s, env)
    ensures MapEntries(entries, s, cache).Ok?
    ensures forall i :: 0 <= i < |entries| ==>
      MapEntries(entries, s, cache).value.pairs[i] == (entries[i].key, ExpectedIn(entries[i].value, s, env))
  {
    EntriesMapToPairs(entries, s, cache, env);
    ExpectedPairsElements(entries, s, env);
  }

  /** The expected pairs of a record's fields: each name with the expected tree of its value under the field `lookup` finds. */
  function ExpectedFieldPairs(fields: seq<V.Entry>, rec: S.Schema, env: Cache): (r: seq<(string, J.Json)>)
    requires rec.Record? && CacheWf(env)
    requires forall i :: 0 <= i < |fields| ==> FieldKnown(fields[i], rec) && FitsIn(fields[i].value, FieldSchema(fields[i], rec), env)
    ensures |r| == |fields|
    decreases V.EntriesSize(fields), 2
  {
    if |fields| == 0 then []
    else
      assert forall k :: 0 <= k < |fields| - 1 ==> fields[1..][k] == fields[k + 1];
      [(fields[0].key, ExpectedIn(fields[0].value, FieldSchema(fields[0], rec), env))] + ExpectedFieldPairs(fields[1..], rec, env)
  }

  lemma {:induction false} ExpectedFieldPairsElements(fields: seq<V.Entry>, rec: S.Schema, env: Cache)
    requires rec.Record? && CacheWf(env)
    requires forall i :: 0 <= i < |fields| ==> FieldKnown(fields[i], rec) && FitsIn(fields[i].value, FieldSchema(fields[i], rec), env)
    ensures forall i :: 0 <= i < |fields| ==>
      ExpectedFieldPairs(fields, rec, env)[i] == (fields[i].key, ExpectedIn(fields[i].value, FieldSchema(fields[i], rec), env))
  {
    if |fields| > 0 {
      var tail := fields[1..];
      assert forall k :: 0 <= k < |tail| ==> tail[k] == fields[k + 1];
      ExpectedFieldPairsElements(tail, rec, env);
    }
  }

  lemma {:induction false} FieldsAsExpected(fields: seq<V.Entry>, rec: S.Schema, cache: Cache, env: Cache)
    requires rec.Record?
    requires CacheWf(cache) && CacheWf(env)
    requires Binds(cache, env)
    requires forall i :: 0 <= i < |fields| ==> FieldKnown(fields[i], rec) && FitsIn(fields[i].value, FieldSchema(fields[i], rec), env)
    ensures MapFields(fields, rec, cache).Ok?
    ensures MapFields(fields, rec, cache).value.pairs == ExpectedFieldPairs(fields, rec, env)
    ensures Binds(MapFields(fields, rec, cache).value.cache, env)
    decreases V.EntriesSize(fields), 2, 0
  {
    if |fields| > 0 {
      MapsAsExpectedIn(fields[0].value, FieldSchema(fields[0], rec), cache, env);
      var first := MapValue(fields[0].value, FieldSchema(fields[0], rec), cache).value;
      assert forall k :: 0 <= k < |fields| - 1 ==> fields[1..][k] == fields[k + 1];
      FieldsAsExpected(fields[1..], rec, first.cache, env);
    }
  }

  /** Under a reference-free schema the mapper succeeds only on fitting values. */
  lemma {:induction false} OkOnlyIfFits(v: V.Value, s: S.Schema, cache: Cache)
    requires CacheWf(cache)
    requires S.RefFree(s)
    requires MapValue(v, s, cache).Ok?
    ensures Fits(v, s)
    decreases V.Size(v), 0
  {
    match v
    case Array(items) =>
      ItemsOkOnlyIfFit(items, s.items, cache);
    case Map(entries) =>
      EntriesOkOnlyIfFit(entries, s.values, cache);
    case Record(fields) =>
      FieldsOkOnlyIfFit(fields, s, cache[s.name := s]);
    case Union(branch, inner) =>
      OkOnlyIfFits(inner, s.variants[branch], RegisterRecords(cache, s.variants));
    case _ =>
  }

  lemma {:induction false} ItemsOkOnlyIfFit(items: seq<V.Value>, s: S.Schema, cache: Cache)
    requires CacheWf(cache)
    requires S.RefFree(s)
    requires MapItems(items, s, cache).Ok?
    ensures forall i :: 0 <= i < |items| ==> Fits(items[i], s)
    decreases V.ItemsSize(items), 1
  {
    if |items| > 0 {
      OkOnlyIfFits(items[0], s, cache);
      var first := MapValue(items[0], s, cache).value;
      ItemsOkOnlyIfFit(items[1..], s, first.cache);
      assert forall i :: 1 <= i < |items| ==> items[i] == items[1..][i - 1];
    }
  }

  lemma {:induction false} EntriesOkOnlyIfFit(entries: seq<V.Entry>, s: S.Schema, cache: Cache)
    requires CacheWf(cache)
    requires S.RefFree(s)
    requires MapEntries(entries, s, cache).Ok?
    ensures forall i :: 0 <= i < |entries| ==> Fits(entries[i].value, s)
    decreases V.EntriesSize(entries), 1
  {
    if |entries| > 0 {
      OkOnlyIfFits(entries[0].value, s, cache);
      var first := MapValue(entries[0].value, s, cache).value;
      EntriesOkOnlyIfFit(entries[1..], s, first.cache);
      assert forall i :: 1 <= i < |entries| ==> entries[i] == entries[1..][i - 1];
    }
  }

  lemma {:induction false} FieldsOkOnlyIfFit(fields: seq<V.Entry>, rec: S.Schema, cache: Cache)
    requires rec.Record?
    requires CacheWf(cache)
    requires S.RefFree(rec)
    requires MapFields(fields, rec, cache).Ok?
    ensures forall i :: 0 <= i < |fields| ==> FieldKnown(fields[i], rec) && Fits(fields[i].value, FieldSchema(fields[i], rec))
    decreases V.EntriesSize(fields), 1
  {
    if |fields| > 0 {
      OkOnlyIfFits(fields[0].value, FieldSchema(fields[0], rec), cache);
      var first := MapValue(fields[0].value, FieldSchema(fields[0], rec), cache).value;
      FieldsOkOnlyIfFit(fields[1..], rec, first.cache);
      assert forall i :: 1 <= i < |fields| ==> fields[i] == fields[1..][i - 1];
    }
  }

  /**
   * Under a reference-free schema the cache is irrelevant to success: the
   * mapper succeeds exactly on the fitting values (and `MapsAsExpected` gives
   * their tree).
   */
  lemma {:induction false} MapsIffFits(v: V.Value, s: S.Schema, cache: Cache)
    requires CacheWf(cache)
    requires S.RefFree(s)
    ensures MapValue(v, s, cache).Ok? <==> Fits(v, s)
  {
    assert MapValue(v, s, cache).Ok? ==> Fits(v, s) by {
      if MapValue(v, s, cache).Ok? {
        OkOnlyIfFits(v, s, cache);
      }
    }
    assert Fits(v, s) ==> MapValue(v, s, cache).Ok? by {
      if Fits(v, s) {
        MapsAsExpected(v, s, cache);
      }
    }
  }

  /** The value kinds the mapper turns into a JSON scalar or byte array without recursion. */
  predicate IsScalar(v: V.Value)
  {
    v.Null? || v.Boolean? || v.Int? || v.Long? || v.String? || v.Date? || v.TimeMillis? || v.TimeMicros?
    || v.TimestampMillis? || v.TimestampMicros? || v.Uuid? || v.Bytes?
  }

  /**
   * A matching scalar pair always maps, leaves the cache as it was, and gives
   * the JSON scalar carrying the same value: integers of every width and every
   * date and time as a number, strings and uuids as a string, bytes as an array
   * of their numbers.
   */
  lemma ScalarPairs(v: V.Value, s: S.Schema, cache: Cache)
    requires CacheWf(cache)
    requires IsScalar(v) && SameKind(v, s)
    ensures MapValue(v, s, cache).Ok?
    ensures MapValue(v, s, cache).value.cache == cache
    ensures v.Null? ==> MapValue(v, s, cache).value.json == J.Null
    ensures v.Boolean? ==> MapValue(v, s, cache).value.json == J.Bool(v.b)
    ensures v.Int? ==> MapValue(v, s, cache).value.json == J.Int(v.i)
    ensures v.Long? ==> MapValue(v, s, cache).value.json == J.Int(v.l)
    ensures v.Date? ==> MapValue(v, s, cache).value.json == J.Int(v.days)
    ensures v.TimeMillis? ==> MapValue(v, s, cache).value.json == J.Int(v.timeMillis)
    ensures v.TimeMicros? ==> MapValue(v, s, cache).value.json == J.Int(v.timeMicros)
    ensures v.TimestampMillis? ==> MapValue(v, s, cache).value.json == J.Int(v.timestampMillis)
    ensures v.TimestampMicros? ==> MapValue(v, s, cache).value.json == J.Int(v.timestampMicros)
    ensures v.String? ==> MapValue(v, s, cache).value.json == J.String(v.s)
    ensures v.Uuid? ==> MapValue(v, s, cache).value.json == J.String(v.uuid)
    ensures v.Bytes? ==> MapValue(v, s, cache).value.json.Array?
    ensures v.Bytes? ==> |MapValue(v, s, cache).value.json.items| == |v.bytes|
    ensures v.Bytes? ==> forall i :: 0 <= i < |v.bytes| ==> MapValue(v, s, cache).value.json.items[i] == J.Int(v.bytes[i])
  {
  }

  /**
   * A float or double maps with the cache unchanged: to the JSON number with
   * its bits when it is finite, and to null when it is NaN or an infinity.
   */
  lemma FloatsMap(v: V.Value, s: S.Schema, cache: Cache)
    requires CacheWf(cache)
    requires (v.Float? && s.Float?) || (v.Double? && s.Double?)
    ensures MapValue(v, s, cache).Ok? && MapValue(v, s, cache).value.cache == cache
    ensures v.Float? ==> (MapValue(v, s, cache).value.json == J.Null <==> J.NonFinite(J.Single(v.floatBits)))
    ensures v.Float? && !J.NonFinite(J.Single(v.floatBits)) ==> MapValue(v, s, cache).value.json == J.Float(J.Single(v.floatBits))
    ensures v.Double? ==> (MapValue(v, s, cache).value.json == J.Null <==> J.NonFinite(J.Double(v.doubleBits)))
    ensures v.Double? && !J.NonFinite(J.Double(v.doubleBits)) ==> MapValue(v, s, cache).value.json == J.Float(J.Double(v.doubleBits))
  {
  }

  /**
   * The `f32` NaN 0x7fc00000 and the `f64` infinity 0x7ff0000000000000 map
   * to null; the test's 123.123f32 (0x42f63efa) and 12.12f64
   * (0x40283d70a3d70a3d) map to numbers.
   */
  lemma NonFiniteIsNull()
    ensures MapValue(V.Float(0x7fc0_0000), S.Float, map[]) == Ok(Mapped(J.Null, map[]))
    ensures MapValue(V.Double(0x7ff0_0000_0000_0000), S.Double, map[]) == Ok(Mapped(J.Null, map[]))
    ensures MapValue(V.Float(0x42f6_3efa), S.Float, map[]) == Ok(Mapped(J.Float(J.Single(0x42f6_3efa)), map[]))
    ensures MapValue(V.Double(0x4028_3d70_a3d7_0a3d), S.Double, map[])
         == Ok(Mapped(J.Float(J.Double(0x4028_3d70_a3d7_0a3d)), map[]))
  {
    FloatsMap(V.Float(0x7fc0_0000), S.Float, map[]);
    FloatsMap(V.Double(0x7ff0_0000_0000_0000), S.Double, map[]);
    FloatsMap(V.Float(0x42f6_3efa), S.Float, map[]);
    FloatsMap(V.Double(0x4028_3d70_a3d7_0a3d), S.Double, map[]);
  }

  /** A value of another kind than its schema (and not under a reference) is outside the domain: the mapper panics. */
  lemma MismatchPanics(v: V.Value, s: S.Schema, cache: Cache)
    requires CacheWf(cache)
    requires !s.Ref? && !SameKind(v, s)
    ensures MapValue(v, s, cache) == Err(Panic(UnexpectedPair))
  {
  }

  /**
   * An array maps to a JSON array of the same length.  Under a
   * reference-free item schema, item `i` becomes the expected tree of value `i`.
   */
  lemma ArrayElementwise(items: seq<V.Value>, s: S.Schema, cache: Cache)
    requires CacheWf(cache)
    requires s.Array?
    ensures MapValue(V.Array(items), s, cache).Ok? ==> MapValue(V.Array(items), s, cache).value.json.Array?
    ensures MapValue(V.Array(items), s, cache).Ok? ==> |MapValue(V.Array(items), s, cache).value.json.items| == |items|
    ensures MapValue(V.Array(items), s, cache).Ok? && S.RefFree(s) ==>
      forall i :: 0 <= i < |items| ==>
        (Fits(items[i], s.items) && MapValue(V.Array(items), s, cache).value.json.items[i] == Expected(items[i], s.items))
  {
    var v := V.Array(items);
    if MapValue(v, s, cache).Ok? && S.RefFree(s) {
      MapsIffFits(v, s, cache);
      MapsAsExpected(v, s, cache);
      assert FitsIn(v, s, map[]);
      ExpectedJsonsElements(items, s.items, map[]);
    }
  }

  /** An Avro map becomes a JSON object with exactly the map's keys. */
  lemma MapKeys(entries: seq<V.Entry>, s: S.Schema, cache: Cache)
    requires CacheWf(cache)
    requires s.Map?
    ensures MapValue(V.Map(entries), s, cache).Ok? ==> MapValue(V.Map(entries), s, cache).value.json.Object?
    ensures MapValue(V.Map(entries), s, cache).Ok? ==>
      MapValue(V.Map(entries), s, cache).value.json.fields.Keys == V.EntryKeys(entries)
  {
    if MapValue(V.Map(entries), s, cache).Ok? {
      var pairs := MapEntries(entries, s.values, cache).value.pairs;
      assert J.KeysOf(pairs) == V.EntryKeys(entries);
    }
  }

  /**
   * Under a reference-free value schema, each key of a mapped Avro map holds
   * the expected tree of the last entry with that key.
   */
  lemma MapValuesElementwise(entries: seq<V.Entry>, s: S.Schema, cache: Cache)
    requires CacheWf(cache)
    requires s.Map? && S.RefFree(s)
    requires MapValue(V.Map(entries), s, cache).Ok?
    ensures MapValue(V.Map(entries), s, cache).value.json.Object?
    ensures forall i :: 0 <= i < |entries| && LastEntry(entries, i) ==>
      (Fits(entries[i].value, s.values)
       && entries[i].key in MapValue(V.Map(entries), s, cache).value.json.fields
       && MapValue(V.Map(entries), s, cache).value.json.fields[entries[i].key] == Expected(entries[i].value, s.values))
  {
    var v := V.Map(entries);
    MapsIffFits(v, s, cache);
    EntriesAsExpected(entries, s.values, cache, map[]);
    var pairs := MapEntries(entries, s.values, cache).value.pairs;
    forall i | 0 <= i < |entries| && LastEntry(entries, i)
      ensures J.LastFor(pairs, i)
    {
    }
  }

  /** Entry `i` is the last entry carrying its key. */
  predicate LastEntry(entries: seq<V.Entry>, i: int)
    requires 0 <= i < |entries|
  {
    forall j :: i < j < |entries| ==> entries[j].key != entries[i].key
  }

  /**
   * A record maps to a JSON object whose keys are exactly its field names;
   * every field name was found through the schema's `lookup`, and the record's
   * own name is registered in the cache.
   */
  lemma RecordKeys(fields: seq<V.Entry>, s: S.Schema, cache: Cache)
    requires CacheWf(cache)
    requires s.Record?
    ensures MapValue(V.Record(fields), s, cache).Ok? ==> MapValue(V.Record(fields), s, cache).value.json.Object?
    ensures MapValue(V.Record(fields), s, cache).Ok? ==>
      MapValue(V.Record(fields), s, cache).value.json.fields.Keys == V.EntryKeys(fields)
    ensures MapValue(V.Record(fields), s, cache).Ok? ==> forall i :: 0 <= i < |fields| ==> FieldKnown(fields[i], s)
    ensures MapValue(V.Record(fields), s, cache).Ok? ==> s.name in MapValue(V.Record(fields), s, cache).value.cache
  {
    var r := MapValue(V.Record(fields), s, cache);
    var m := MapFields(fields, s, cache[s.name := s]);
    assert r == (match m
                 case Err(p) => Err(p)
                 case Ok(x) => Ok(Mapped(J.Object(J.ObjectOf(x.pairs)), x.cache)));
    if r.Ok? {
      assert m.Ok?;
      PairKeysAreEntryKeys(m.value.pairs, fields);
    }
  }

  /** Pairs carrying the entries' keys, position by position, have the entries' key set. */
  lemma PairKeysAreEntryKeys(pairs: seq<(string, J.Json)>, fields: seq<V.Entry>)
    requires |pairs| == |fields|
    requires forall i :: 0 <= i < |fields| ==> pairs[i].0 == fields[i].key
    ensures J.KeysOf(pairs) == V.EntryKeys(fields)
  {
  }

  /** A field name that `lookup` does not know makes the mapper panic, wherever the field stands. */
  lemma UnknownFieldPanics(fields: seq<V.Entry>, s: S.Schema, cache: Cache, i: nat)
    requires CacheWf(cache)
    requires s.Record?
    requires i < |fields| && fields[i].key !in s.lookup
    ensures MapValue(V.Record(fields), s, cache).Err?
  {
  }

  /**
   * Under a reference-free schema, each field of a mapped record holds the
   * expected tree of its value (the last one, if a name repeats) under the
   * schema of the field `lookup` finds.
   */
  lemma RecordElementwise(fields: seq<V.Entry>, s: S.Schema, cache: Cache)
    requires CacheWf(cache)
    requires s.Record? && S.RefFree(s)
    requires MapValue(V.Record(fields), s, cache).Ok?
    ensures MapValue(V.Record(fields), s, cache).value.json.Object?
    ensures forall i :: 0 <= i < |fields| && LastEntry(fields, i) ==>
      (FieldKnown(fields[i], s) && Fits(fields[i].value, FieldSchema(fields[i], s))
       && fields[i].key in MapValue(V.Record(fields), s, cache).value.json.fields
       && MapValue(V.Record(fields), s, cache).value.json.fields[fields[i].key] == Expected(fields[i].value, FieldSchema(fields[i], s)))
  {
    var v := V.Record(fields);
    MapsIffFits(v, s, cache);
    MapsAsExpected(v, s, cache);
    ExpectedRecord(fields, s);
    var pairs := ExpectedFieldPairs(fields, s, map[]);
    forall i | 0 <= i < |fields| && LastEntry(fields, i)
      ensures J.LastFor(pairs, i)
    {
    }
  }

  /**
   * `Union(i, v)` under a union schema: a missing variant `i` panics;
   * otherwise every record variant's name is registered and `v` is mapped
   * under variant `i`.
   */
  lemma UnionSelectsVariant(branch: nat, inner: V.Value, s: S.Schema, cache: Cache)
    requires CacheWf(cache)
    requires s.Union?
    ensures branch >= |s.variants| ==> MapValue(V.Union(branch, inner), s, cache) == Err(Panic(MissingUnionVariant))
    ensures branch < |s.variants| ==>
      MapValue(V.Union(branch, inner), s, cache) == MapValue(inner, s.variants[branch], RegisterRecords(cache, s.variants))
    ensures MapValue(V.Union(branch, inner), s, cache).Ok? ==>
      forall i :: 0 <= i < |s.variants| && s.variants[i].Record? ==> s.variants[i].name in MapValue(V.Union(branch, inner), s, cache).value.cache
  {
    if branch < |s.variants| {
      UnionMapsInner(V.Union(branch, inner), s, cache);
    }
  }

  /** A union value whose branch exists is mapped as its inner value under that variant. */
  lemma UnionMapsInner(v: V.Value, s: S.Schema, cache: Cache)
    requires CacheWf(cache)
    requires v.Union? && s.Union? && v.branch < |s.variants|
    ensures MapValue(v, s, cache) == MapValue(v.inner, s.variants[v.branch], RegisterRecords(cache, s.variants))
  {
  }

  /**
   * A `Ref` schema is resolved through the cache: an unknown name panics; a
   * known one stands for the named schema registered under it, and the value
   * is mapped under that schema.
   */
  lemma RefResolves(v: V.Value, n: S.Name, cache: Cache)
    requires CacheWf(cache)
    ensures n !in cache ==> MapValue(v, S.Ref(n), cache) == Err(Panic(MissingReference))
    ensures n in cache ==> cache[n].IsNamed() && cache[n].name == n
    ensures n in cache ==> MapValue(v, S.Ref(n), cache) == MapValue(v, cache[n], cache)
  {
  }

  /**
   * A decimal maps exactly when its unscaled value fits `i64` and its scale
   * (cast to `u32`) is at most 28.  Its JSON text then reads back as that
   * unscaled value and scale (and `EncodeSignedOfSigned` turns that value
   * back into the decoded bytes).
   */
  lemma DecimalMaps(unscaled: seq<byte>, s: S.Schema, cache: Cache)
    requires CacheWf(cache)
    requires s.Decimal?
    ensures MapValue(V.Decimal(unscaled), s, cache).Ok? <==> IsI64(Signed(unscaled)) && DecimalScale(s.scale) <= MaxScale
    ensures MapValue(V.Decimal(unscaled), s, cache).Ok? ==>
      var j := MapValue(V.Decimal(unscaled), s, cache).value.json;
      j.String? && ReadDecimal(j.s) == Some((Signed(unscaled), DecimalScale(s.scale)))
  {
    var n, scale := Signed(unscaled), DecimalScale(s.scale);
    var r := MapValue(V.Decimal(unscaled), s, cache);
    assert r == if !IsI64(n) then Err(Panic(NotAnI64))
                else if scale > MaxScale then Err(Panic(ScaleTooLarge))
                else Ok(Mapped(J.String(DecimalText(n, scale)), cache));
    if r.Ok? {
      DecimalTextRoundTrip(n, scale);
    }
  }

  /**
   * An enum maps to its symbol and a fixed to the array of its bytes; both
   * register their schema under its name and change nothing else in the cache.
   */
  lemma NamedTypesRegister(v: V.Value, s: S.Schema, cache: Cache)
    requires CacheWf(cache)
    requires (v.Enum? && s.Enum?) || (v.Fixed? && s.Fixed?)
    ensures MapValue(v, s, cache).Ok?
    ensures MapValue(v, s, cache).value.cache == cache[s.name := s]
    ensures v.Enum? ==> MapValue(v, s, cache).value.json == J.String(v.symbol)
    ensures v.Fixed? ==> MapValue(v, s, cache).value.json == BytesJson(v.fixedBytes)
  {
  }
}
