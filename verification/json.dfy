/**
 * The JSON tree of serde_json (`serde_json::Value`), the target of both Avro
 * mappers.
 *
 * Objects are serde_json's default `Map`, an ordered map from keys to values:
 * inserting a key that is already present replaces its value.  The key order
 * only matters to the text serializer, which is not part of this model, so an
 * object is a plain `map`.
 */
module JsonValues {

  /** A floating-point number, kept as its bit pattern and never interpreted. */
  datatype FloatBits = Single(bits32: nat) | Double(bits64: nat)

  datatype Json =
    | Null
    | Bool(b: bool)
    | Int(i: int)
    | Float(f: FloatBits)
    | String(s: string)
    | Array(items: seq<Json>)
    | Object(fields: map<string, Json>)

  /**
   * NaN or an infinity: the exponent bits of the IEEE 754 pattern are all
   * ones (8 bits above a 23-bit fraction for `f32`, 11 bits above a 52-bit
   * fraction for `f64`).
   */
  predicate NonFinite(f: FloatBits)
  {
    match f
    case Single(b) => (b / 0x80_0000) % 0x100 == 0xff
    case Double(b) => (b / 0x10_0000_0000_0000) % 0x800 == 0x7ff
  }

  /**
   * serde_json's `From<f32>` and `From<f64>` (what `json!` does with a
   * float): a finite float becomes a number, NaN and the infinities become
   * null.
   */
  function FromFloat(f: FloatBits): (j: Json)
    ensures j.Null? <==> NonFinite(f)
    ensures j.Null? || j == Float(f)
  {
    if NonFinite(f) then Null else Float(f)
  }

  /** The keys of a list of key/value pairs. */
  function KeysOf(pairs: seq<(string, Json)>): (ks: set<string>)
    ensures forall i :: 0 <= i < |pairs| ==> pairs[i].0 in ks
    ensures forall k :: k in ks ==> exists i :: 0 <= i < |pairs| && pairs[i].0 == k
  {
    set i | 0 <= i < |pairs| :: pairs[i].0
  }

  /** Pair `i` is the last pair carrying its key. */
  predicate LastFor(pairs: seq<(string, Json)>, i: int)
    requires 0 <= i < |pairs|
  {
    forall j :: i < j < |pairs| ==> pairs[j].0 != pairs[i].0
  }

  /**
   * The object built by inserting `pairs` in order into an empty `Map`, as the
   * mappers' loops do: every key of the pairs is present, and each key holds
   * the value of its last pair.
   */
  function ObjectOf(pairs: seq<(string, Json)>): (m: map<string, Json>)
    ensures m.Keys == KeysOf(pairs)
    ensures forall i :: 0 <= i < |pairs| && LastFor(pairs, i) ==> m[pairs[i].0] == pairs[i].1
  {
    if |pairs| == 0 then map[]
    else
      var init := pairs[..|pairs| - 1];
      var last := pairs[|pairs| - 1];
      KeysOfSnoc(init, last);
      assert pairs == init + [last];
      ObjectOf(init)[last.0 := last.1]
  }

  lemma KeysOfSnoc(init: seq<(string, Json)>, last: (string, Json))
    ensures KeysOf(init + [last]) == KeysOf(init) + {last.0}
  {
    var pairs := init + [last];
    assert forall i :: 0 <= i < |init| ==> pairs[i] == init[i];
    assert pairs[|init|] == last;
  }
}
