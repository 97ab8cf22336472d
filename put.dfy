/** `PutRequest`, `PutResponse` and the `Put` call (pkg/etcd/put.go). */
module Puts {
  import opened Wrappers
  import opened GoTypes
  import opened Wire
  import opened KeyValues

  datatype PutRequest = PutRequest(
    key: bytes,
    value: bytes,
    prevKv: bool,
    ignoreValue: bool)

  /** `PutRequest{Key: key, Value: value}`: the flags at Go's zero value. */
  function PutRequestOf(key: bytes, value: bytes): PutRequest
  {
    PutRequest(key, value, false, false)
  }

  /** How a server reads a wire put request: the reference inverse of the serialiser. */
  function PutRequestFromWire(w: WirePutRequest): PutRequest
  {
    PutRequest(w.key, w.value, w.prevKv, w.ignoreValue)
  }

  /**
   * `serializePutRequest`: nil stays nil; Key, Value, PrevKv and IgnoreValue
   * are copied; the wire-only lease is 0 and IgnoreLease false.
   */
  function SerializePutRequest(request: Option<PutRequest>): (w: Option<WirePutRequest>)
    ensures w.None? <==> request.None?
    ensures w.Some? ==> PutRequestFromWire(w.value) == request.value
    ensures w.Some? ==> w.value.lease == 0 && !w.value.ignoreLease
  {
    match request
    case None => None
    case Some(r) => Some(WirePutRequest(r.key, r.value, 0, r.prevKv, r.ignoreValue, false))
  }

  /** Distinct requests never serialise alike. */
  lemma SerializePutRequestInjective(a: Option<PutRequest>, b: Option<PutRequest>)
    requires SerializePutRequest(a) == SerializePutRequest(b)
    ensures a == b
  {
    if a.Some? {
      assert PutRequestFromWire(SerializePutRequest(a).value) == a.value;
    }
  }

  datatype PutResponse = PutResponse(
    revision: int64,
    prevKv: Option<KeyValue>)

  predicate PutHeaderPresent(w: Option<WirePutResponse>)
  {
    w.Some? ==> w.value.header.Some?
  }

  /**
   * `deserializePutResponse`: nil stays nil, the revision comes from the header
   * and PrevKv is absent exactly when the wire prev_kv is.
   */
  function DeserializePutResponse(w: Option<WirePutResponse>): (r: Option<PutResponse>)
    requires PutHeaderPresent(w)
    ensures r.None? <==> w.None?
    ensures r.Some? ==> r.value.revision == w.value.header.value.revision
    ensures r.Some? ==> (r.value.prevKv.None? <==> w.value.prevKv.None?)
    ensures r.Some? ==> r.value.prevKv == DeserializeKeyValue(w.value.prevKv)
  {
    match w
    case None => None
    case Some(v) => Some(PutResponse(v.header.value.revision, DeserializeKeyValue(v.prevKv)))
  }

  /** What a server at `resp.revision` puts on the wire for `resp`. */
  function EncodePutResponse(resp: PutResponse): WirePutResponse
  {
    WirePutResponse(Some(HeaderAt(resp.revision)),
                    if resp.prevKv.Some? then Some(EncodeKeyValue(resp.prevKv.value)) else None)
  }

  /** Deserialising what the server encodes gives the response back. */
  lemma DeserializeEncodedPutResponse(resp: PutResponse)
    ensures DeserializePutResponse(Some(EncodePutResponse(resp))) == Some(resp)
  {
    if resp.prevKv.Some? {
      DeserializeEncodedKeyValue(resp.prevKv.value);
    }
  }

  /**
   * `Put`: serialise, call the remote Put, and deserialise. A transport error
   * comes back unchanged with no response.
   */
  function Put(client: KVClient, request: Option<PutRequest>): (r: Result<Option<PutResponse>, Error>)
    requires client.put(SerializePutRequest(request)).Success? ==>
               PutHeaderPresent(client.put(SerializePutRequest(request)).value)
    ensures client.put(SerializePutRequest(request)).Failure? ==>
              r == Failure(client.put(SerializePutRequest(request)).error)
    ensures client.put(SerializePutRequest(request)).Success? ==>
              r == Success(DeserializePutResponse(client.put(SerializePutRequest(request)).value))
  {
    match client.put(SerializePutRequest(request))
    case Failure(e) => Failure(e)
    case Success(response) => Success(DeserializePutResponse(response))
  }
}
