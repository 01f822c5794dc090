/**
 * The schema-driven mapping from decoded Avro data to a JSON tree: the
 * recursive `map` of the newer Avro parser.
 *
 * The mapper walks a value and its schema together.  Named types (records,
 * enums, fixed) met on the way are registered in a reference cache, so that a
 * later `Ref` to the same full name can be resolved.  Every failure of the
 * source mapper is a panic (`expect`, `unwrap`, `panic!`); here a panic is an
 * `Err(Panic(..))` result carrying its message.
 */
module AvroJson {
  import opened Wrappers
  import opened Ints
  import opened Text
  import opened Decimals
  import V = AvroValues
  import S = AvroSchemas
  import J = JsonValues

  /** The reference cache: named schemas met so far, by full name. */
  type Cache = map<S.Name, S.Schema>

  /**
   * The cache holds only named schemas, each under its own name.  The mapper
   * only ever inserts a named schema under its name, so this holds of every
   * cache it builds from the empty one.
   */
  predicate CacheWf(cache: Cache)
  {
    forall n :: n in cache ==> cache[n].IsNamed() && cache[n].name == n
  }

  /** A panic of the mapper, with its message; the mapper fails in no other way. */
  datatype Panic = Panic(message: string)

  datatype Mapped = Mapped(json: J.Json, cache: Cache)
  datatype MappedSeq = MappedSeq(jsons: seq<J.Json>, cache: Cache)
  datatype MappedPairs = MappedPairs(pairs: seq<(string, J.Json)>, cache: Cache)

  const UnexpectedPair := "Unexpected value/schema tuple"
  const MissingUnionVariant := "Missing schema in the union"
  const MissingReference := "Missing Avro schema reference"
  const NotAnI64 := "Unable to cast to i64"
  const ScaleTooLarge := "Scale exceeds the maximum precision allowed"
  const UnwrapNone := "called `Option::unwrap()` on a `None` value"

  function MissingField(k: string): string
  {
    "Missing field " + k
  }

  /** A byte string as serde_json renders a `Vec<u8>`: an array of numbers. */
  function BytesJson(bs: seq<byte>): (j: J.Json)
    ensures j.Array? && |j.items| == |bs|
    ensures forall i :: 0 <= i < |bs| ==> j.items[i] == J.Int(bs[i])
  {
    J.Array(seq(|bs|, i requires 0 <= i < |bs| => J.Int(bs[i])))
  }

  /** The text of an Avro duration: each of its three counts in its `Debug` form, then the unit. */
  function DurationText(months: nat, days: nat, millis: nat): string
  {
    "Months(" + NatToString(months) + ") months " +
    "Days(" + NatToString(days) + ") days " +
    "Millis(" + NatToString(millis) + ") millis"
  }

  /** The scale handed to `Decimal::new`: the schema's scale cast to `u32`, which keeps its low 32 bits. */
  function DecimalScale(scale: nat): (r: nat)
    ensures r < 0x1_0000_0000
    ensures scale < 0x1_0000_0000 ==> r == scale
  {
    scale % 0x1_0000_0000
  }

  /** Schema `i` of `variants` is a record, and no later variant is a record with its name. */
  predicate LastRecordNamed(variants: seq<S.Schema>, i: int)
    requires 0 <= i < |variants|
  {
    variants[i].Record?
    && forall j :: i < j < |variants| && variants[j].Record? ==> variants[j].name != variants[i].name
  }

  /** The names of the record variants among `variants`. */
  function RecordNames(variants: seq<S.Schema>): set<S.Name>
  {
    set i | 0 <= i < |variants| && variants[i].Record? :: variants[i].name
  }

  lemma RecordNamesSplit(variants: seq<S.Schema>)
    requires |variants| > 0
    ensures RecordNames(variants)
         == (if variants[0].Record? then {variants[0].name} else {}) + RecordNames(variants[1..])
  {
    var head := if variants[0].Record? then {variants[0].name} else {};
    forall n | n in RecordNames(variants) ensures n in head + RecordNames(variants[1..]) {
      var i :| 0 <= i < |variants| && variants[i].Record? && variants[i].name == n;
      if i > 0 {
        assert variants[1..][i - 1] == variants[i];
      }
    }
    forall n | n in RecordNames(variants[1..]) ensures n in RecordNames(variants) {
      var i :| 0 <= i < |variants[1..]| && variants[1..][i].Record? && variants[1..][i].name == n;
      assert variants[i + 1] == variants[1..][i];
    }
  }

  /** One step of the registration: the first variant, then the rest, give the promised cache. */
  lemma RegisterStep(cache: Cache, variants: seq<S.Schema>, next: Cache, r: Cache)
    requires CacheWf(cache) && |variants| > 0
    requires next == if variants[0].Record? then cache[variants[0].name := variants[0]] else cache
    requires r.Keys == next.Keys + RecordNames(variants[1..])
    requires forall i :: 0 <= i < |variants[1..]| && LastRecordNamed(variants[1..], i) ==> r[variants[1..][i].name] == variants[1..][i]
    requires forall n :: n in next && (forall i :: 0 <= i < |variants[1..]| && variants[1..][i].Record? ==> variants[1..][i].name != n)
                         ==> r[n] == next[n]
    ensures r.Keys == cache.Keys + RecordNames(variants)
    ensures forall i :: 0 <= i < |variants| && LastRecordNamed(variants, i) ==> r[variants[i].name] == variants[i]
    ensures forall n :: n in cache && (forall i :: 0 <= i < |variants| && variants[i].Record? ==> variants[i].name != n)
                        ==> r[n] == cache[n]
  {
    RecordNamesSplit(variants);
    var rest := variants[1..];
    forall i | 0 <= i < |variants| && LastRecordNamed(variants, i) ensures r[variants[i].name] == variants[i] {
      if i == 0 {
        forall k | 0 <= k < |rest| && rest[k].Record? ensures rest[k].name != variants[0].name {
          assert rest[k] == variants[k + 1];
        }
      } else {
        assert rest[i - 1] == variants[i];
        assert LastRecordNamed(rest, i - 1);
      }
    }
    forall n | n in cache && (forall i :: 0 <= i < |variants| && variants[i].Record? ==> variants[i].name != n)
      ensures r[n] == cache[n]
    {
      forall k | 0 <= k < |rest| && rest[k].Record? ensures rest[k].name != n {
        assert rest[k] == variants[k + 1];
      }
    }
  }

  /**
   * The cache after registering the record variants of a union, in order.
   * Each record variant's name is added; a later record of the same name
   * replaces an earlier one; every other entry is kept.
   */
  function RegisterRecords(cache: Cache, variants: seq<S.Schema>): (r: Cache)
    requires CacheWf(cache)
    ensures CacheWf(r)
    ensures r.Keys == cache.Keys + RecordNames(variants)
    ensures forall i :: 0 <= i < |variants| && LastRecordNamed(variants, i) ==> r[variants[i].name] == variants[i]
    ensures forall n :: n in cache && (forall i :: 0 <= i < |variants| && variants[i].Record? ==> variants[i].name != n)
                        ==> r[n] == cache[n]
    decreases |variants|
  {
    if |variants| == 0 then cache
    else
      var s := variants[0];
      var next := if s.Record? then cache[s.name := s] else cache;
      var r := RegisterRecords(next, variants[1..]);
      RegisterStep(cache, variants, next, r);
      r
  }

  /**
   * `map(value, schema, ref_cache)`: the JSON tree of `v` read under `s`, and
   * the cache extended with the named types met.
   *
   * A `Ref` schema is resolved first: in the source the reference arm follows
   * the specific arms, but none of them matches a reference, so the order
   * does not change the result.
   */
  function MapValue(v: V.Value, s: S.Schema, cache: Cache): (r: Result<Mapped, Panic>)
    requires CacheWf(cache)
    ensures r.Ok? ==> CacheWf(r.value.cache) && cache.Keys <= r.value.cache.Keys
    decreases V.Size(v), if s.Ref? then 1 else 0
  {
    if s.Ref? then
      if s.name in cache then MapValue(v, cache[s.name], cache)
      else Err(Panic(MissingReference))
    else
      var mismatch := Err(Panic(UnexpectedPair));
      match v
      case Null => if s.Null? then Ok(Mapped(J.Null, cache)) else mismatch
      case Boolean(b) => if s.Boolean? then Ok(Mapped(J.Bool(b), cache)) else mismatch
      case Int(i) => if s.Int? then Ok(Mapped(J.Int(i), cache)) else mismatch
      case Long(l) => if s.Long? then Ok(Mapped(J.Int(l), cache)) else mismatch
      case Float(bits) => if s.Float? then Ok(Mapped(J.FromFloat(J.Single(bits)), cache)) else mismatch
      case Double(bits) => if s.Double? then Ok(Mapped(J.FromFloat(J.Double(bits)), cache)) else mismatch
      case String(text) => if s.String? then Ok(Mapped(J.String(text), cache)) else mismatch
      case Array(items) =>
        if s.Array? then
          match MapItems(items, s.items, cache)
          case Err(p) => Err(p)
          case Ok(m) => Ok(Mapped(J.Array(m.jsons), m.cache))
        else mismatch
      case Map(entries) =>
        if s.Map? then
          match MapEntries(entries, s.values, cache)
          case Err(p) => Err(p)
          case Ok(m) => Ok(Mapped(J.Object(J.ObjectOf(m.pairs)), m.cache))
        else mismatch
      case Record(fields) =>
        if s.Record? then
          match MapFields(fields, s, cache[s.name := s])
          case Err(p) => Err(p)
          case Ok(m) => Ok(Mapped(J.Object(J.ObjectOf(m.pairs)), m.cache))
        else mismatch
      case Date(days) => if s.Date? then Ok(Mapped(J.Int(days), cache)) else mismatch
      case TimeMillis(t) => if s.TimeMillis? then Ok(Mapped(J.Int(t), cache)) else mismatch
      case TimeMicros(t) => if s.TimeMicros? then Ok(Mapped(J.Int(t), cache)) else mismatch
      case TimestampMillis(t) => if s.TimestampMillis? then Ok(Mapped(J.Int(t), cache)) else mismatch
      case TimestampMicros(t) => if s.TimestampMicros? then Ok(Mapped(J.Int(t), cache)) else mismatch
      case Uuid(text) => if s.Uuid? then Ok(Mapped(J.String(text), cache)) else mismatch
      case Bytes(bs) => if s.Bytes? then Ok(Mapped(BytesJson(bs), cache)) else mismatch
      case Decimal(unscaled) =>
        if s.Decimal? then
          var n := Signed(unscaled);
          if !IsI64(n) then Err(Panic(NotAnI64))
          else if DecimalScale(s.scale) > MaxScale then Err(Panic(ScaleTooLarge))
          else Ok(Mapped(J.String(DecimalText(n, DecimalScale(s.scale))), cache))
        else mismatch
      case Duration(months, days, millis) =>
        if s.Duration? then Ok(Mapped(J.String(DurationText(months, days, millis)), cache)) else mismatch
      case Union(branch, inner) =>
        if s.Union? then
          if branch < |s.variants| then MapValue(inner, s.variants[branch], RegisterRecords(cache, s.variants))
          else Err(Panic(MissingUnionVariant))
        else mismatch
      case Enum(_, symbol) => if s.Enum? then Ok(Mapped(J.String(symbol), cache[s.name := s])) else mismatch
      case Fixed(_, bs) => if s.Fixed? then Ok(Mapped(BytesJson(bs), cache[s.name := s])) else mismatch
  }

  /** The loop over an array's items, all read under the item schema, threading the cache. */
  function MapItems(items: seq<V.Value>, s: S.Schema, cache: Cache): (r: Result<MappedSeq, Panic>)
    requires CacheWf(cache)
    ensures r.Ok? ==> |r.value.jsons| == |items|
    ensures r.Ok? ==> CacheWf(r.value.cache) && cache.Keys <= r.value.cache.Keys
    decreases V.ItemsSize(items), 2
  {
    if |items| == 0 then Ok(MappedSeq([], cache))
    else
      match MapValue(items[0], s, cache)
      case Err(p) => Err(p)
      case Ok(first) =>
        match MapItems(items[1..], s, first.cache)
        case Err(p) => Err(p)
        case Ok(rest) => Ok(MappedSeq([first.json] + rest.jsons, rest.cache))
  }

  /** The loop over a map's entries, all read under the value schema, threading the cache. */
  function MapEntries(entries: seq<V.Entry>, s: S.Schema, cache: Cache): (r: Result<MappedPairs, Panic>)
    requires CacheWf(cache)
    ensures r.Ok? ==> |r.value.pairs| == |entries| && forall i :: 0 <= i < |entries| ==> r.value.pairs[i].0 == entries[i].key
    ensures r.Ok? ==> CacheWf(r.value.cache) && cache.Keys <= r.value.cache.Keys
    decreases V.EntriesSize(entries), 2
  {
    if |entries| == 0 then Ok(MappedPairs([], cache))
    else
      match MapValue(entries[0].value, s, cache)
      case Err(p) => Err(p)
      case Ok(first) =>
        match MapEntries(entries[1..], s, first.cache)
        case Err(p) => Err(p)
        case Ok(rest) => Ok(MappedPairs([(entries[0].key, first.json)] + rest.pairs, rest.cache))
  }

  /**
   * The loop over a record's fields: each field is read under the schema of
   * the record field its name finds through `lookup`; an unknown name panics.
   */
  function MapFields(fields: seq<V.Entry>, rec: S.Schema, cache: Cache): (r: Result<MappedPairs, Panic>)
    requires rec.Record?
    requires CacheWf(cache)
    ensures r.Ok? ==> |r.value.pairs| == |fields| && forall i :: 0 <= i < |fields| ==> r.value.pairs[i].0 == fields[i].key
    ensures r.Ok? ==> forall i :: 0 <= i < |fields| ==> fields[i].key in rec.lookup && rec.lookup[fields[i].key] < |rec.fields|
    ensures r.Ok? ==> CacheWf(r.value.cache) && cache.Keys <= r.value.cache.Keys
    decreases V.EntriesSize(fields), 2
  {
    if |fields| == 0 then Ok(MappedPairs([], cache))
    else
      var k := fields[0].key;
      if k !in rec.lookup then Err(Panic(MissingField(k)))
      else if rec.lookup[k] >= |rec.fields| then Err(Panic(UnwrapNone))
      else
        match MapValue(fields[0].value, rec.fields[rec.lookup[k]].schema, cache)
        case Err(p) => Err(p)
        case Ok(first) =>
          match MapFields(fields[1..], rec, first.cache)
          case Err(p) => Err(p)
          case Ok(rest) => Ok(MappedPairs([(k, first.json)] + rest.pairs, rest.cache))
  }
}
