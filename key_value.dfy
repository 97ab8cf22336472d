/** `KeyValue` and its deserialiser (pkg/etcd/key_value.go). */
module KeyValues {
  import opened Wrappers
  import opened GoTypes
  import opened Wire

  /** The client's view of a stored key: five fields, no lease. */
  datatype KeyValue = KeyValue(
    key: bytes,
    modRevision: int64,
    createRevision: int64,
    version: int64,
    value: bytes)

  /** `deserializeKeyValue`: nil stays nil, the five fields are copied and the lease is dropped. */
  function DeserializeKeyValue(kv: Option<WireKeyValue>): (r: Option<KeyValue>)
    ensures r.None? <==> kv.None?
    ensures r.Some? ==> r.value.key == kv.value.key && r.value.value == kv.value.value
    ensures r.Some? ==> r.value.modRevision == kv.value.modRevision
    ensures r.Some? ==> r.value.createRevision == kv.value.createRevision
    ensures r.Some? ==> r.value.version == kv.value.version
  {
    match kv
    case None => None
    case Some(w) => Some(KeyValue(w.key, w.modRevision, w.createRevision, w.version, w.value))
  }

  /** What a server puts on the wire for a stored `kv` without a lease: the reference inverse. */
  function EncodeKeyValue(kv: KeyValue): WireKeyValue
  {
    WireKeyValue(kv.key, kv.createRevision, kv.modRevision, kv.version, kv.value, 0)
  }

  /** Deserialising what the server encodes gives the key-value back. */
  lemma DeserializeEncodedKeyValue(kv: KeyValue)
    ensures DeserializeKeyValue(Some(EncodeKeyValue(kv))) == Some(kv)
  {
  }

  /** Two wire key-values deserialise alike exactly when they differ at most in their lease. */
  lemma DeserializeKeyValueDropsOnlyLease(a: WireKeyValue, b: WireKeyValue)
    ensures DeserializeKeyValue(Some(a)) == DeserializeKeyValue(Some(b)) <==> a.(lease := 0) == b.(lease := 0)
  {
  }

  /**
   * The key-values of a wire slice, deserialised one by one and appended in
   * order (the loops of `deserializeRangeResponse` and `deserializeDeleteResponse`).
   */
  function KeyValuesOf(ws: seq<Option<WireKeyValue>>): (r: seq<Option<KeyValue>>)
    ensures |r| == |ws|
    ensures forall i :: 0 <= i < |ws| ==> r[i] == DeserializeKeyValue(ws[i])
  {
    if ws == [] then [] else KeyValuesOf(ws[..|ws| - 1]) + [DeserializeKeyValue(ws[|ws| - 1])]
  }

  /** The slice a server puts on the wire for `kvs`, nil entries staying nil. */
  function EncodeKeyValues(kvs: seq<Option<KeyValue>>): (r: seq<Option<WireKeyValue>>)
    ensures |r| == |kvs|
  {
    seq(|kvs|, i requires 0 <= i < |kvs| => if kvs[i].Some? then Some(EncodeKeyValue(kvs[i].value)) else None)
  }

  /** Deserialising an encoded slice gives it back, entry by entry and in order. */
  lemma {:induction false} KeyValuesOfEncoded(kvs: seq<Option<KeyValue>>)
    ensures KeyValuesOf(EncodeKeyValues(kvs)) == kvs
  {
    var r := KeyValuesOf(EncodeKeyValues(kvs));
    forall i | 0 <= i < |kvs| ensures r[i] == kvs[i] {
      if kvs[i].Some? {
        DeserializeEncodedKeyValue(kvs[i].value);
      }
    }
  }
}
