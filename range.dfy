/** `RangeRequest`, `RangeResponse` and the `Range` call (pkg/etcd/range.go). */
module Ranges {
  import opened Wrappers
  import opened GoTypes
  import opened Wire
  import opened KeyValues

  datatype RangeRequest = RangeRequest(
    key: bytes,
    rangeEnd: bytes,
    limit: int64,
    revision: int64,
    sortTarget: SortTarget,
    sortOrder: SortOrder,
    keysOnly: bool,
    countOnly: bool,
    minModRevision: int64,
    maxModRevision: int64,
    minCreateRevision: int64,
    maxCreateRevision: int64)

  /** `RangeRequest{Key: key}`: every other field at Go's zero value, so an empty RangeEnd (a single-key read). */
  function RangeRequestOn(key: bytes): RangeRequest
  {
    RangeRequest(key, [], 0, 0, SortByKey, SortNone, false, false, 0, 0, 0, 0)
  }

  /** `OrderByKey()`: a copy sorted by key; restoring the old target gives the receiver back. */
  function OrderByKey(request: RangeRequest): (r: RangeRequest)
    ensures r.sortTarget == SortByKey && r.(sortTarget := request.sortTarget) == request
  {
    request.(sortTarget := SortByKey)
  }

  /** `OrderByModRevision()`: a copy sorted by mod revision, nothing else changed. */
  function OrderByModRevision(request: RangeRequest): (r: RangeRequest)
    ensures r.sortTarget == SortByMod && r.(sortTarget := request.sortTarget) == request
  {
    request.(sortTarget := SortByMod)
  }

  /** `OrderByCreateRevision()`: a copy sorted by create revision, nothing else changed. */
  function OrderByCreateRevision(request: RangeRequest): (r: RangeRequest)
    ensures r.sortTarget == SortByCreate && r.(sortTarget := request.sortTarget) == request
  {
    request.(sortTarget := SortByCreate)
  }

  /** `OrderByVersion()`: a copy sorted by version, nothing else changed. */
  function OrderByVersion(request: RangeRequest): (r: RangeRequest)
    ensures r.sortTarget == SortByVersion && r.(sortTarget := request.sortTarget) == request
  {
    request.(sortTarget := SortByVersion)
  }

  /** `OrderByValue()`: a copy sorted by value, nothing else changed. */
  function OrderByValue(request: RangeRequest): (r: RangeRequest)
    ensures r.sortTarget == SortByValue && r.(sortTarget := request.sortTarget) == request
  {
    request.(sortTarget := SortByValue)
  }

  /**
   * A `*RangeRequest`: a reference through which `Ascending` and `Descending`
   * overwrite the sort order in place and hand back the same pointer.
   */
  class RangeRequestRef {
    var request: RangeRequest

    constructor (request: RangeRequest)
      ensures this.request == request
    {
      this.request := request;
    }

    /** `Ascending()`: SortOrder becomes ASCEND in place; the same reference is returned. */
    method Ascending() returns (same: RangeRequestRef)
      modifies this
      ensures same == this
      ensures request.sortOrder == Ascend && request.(sortOrder := old(request).sortOrder) == old(request)
    {
      request := request.(sortOrder := Ascend);
      same := this;
    }

    /** `Descending()`: SortOrder becomes DESCEND in place; the same reference is returned. */
    method Descending() returns (same: RangeRequestRef)
      modifies this
      ensures same == this
      ensures request.sortOrder == Descend && request.(sortOrder := old(request).sortOrder) == old(request)
    {
      request := request.(sortOrder := Descend);
      same := this;
    }
  }

  /** How a server reads a wire range request: the reference inverse of the serialiser. */
  function RangeRequestOf(w: WireRangeRequest): RangeRequest
  {
    RangeRequest(w.key, w.rangeEnd, w.limit, w.revision, w.sortTarget, w.sortOrder, w.keysOnly, w.countOnly,
                 w.minModRevision, w.maxModRevision, w.minCreateRevision, w.maxCreateRevision)
  }

  /**
   * `serializeRangeRequest`: nil stays nil; the twelve fields are copied and
   * the wire-only `serializable` flag is left false.
   */
  function SerializeRangeRequest(request: Option<RangeRequest>): (w: Option<WireRangeRequest>)
    ensures w.None? <==> request.None?
    ensures w.Some? ==> RangeRequestOf(w.value) == request.value && !w.value.serializable
  {
    match request
    case None => None
    case Some(r) =>
      Some(WireRangeRequest(r.key, r.rangeEnd, r.limit, r.revision, r.sortOrder, r.sortTarget, false,
                            r.keysOnly, r.countOnly, r.minModRevision, r.maxModRevision,
                            r.minCreateRevision, r.maxCreateRevision))
  }

  /** Distinct requests never serialise alike. */
  lemma SerializeRangeRequestInjective(a: Option<RangeRequest>, b: Option<RangeRequest>)
    requires SerializeRangeRequest(a) == SerializeRangeRequest(b)
    ensures a == b
  {
    if a.Some? {
      assert RangeRequestOf(SerializeRangeRequest(a).value) == a.value;
    }
  }

  datatype RangeResponse = RangeResponse(
    revision: int64,
    count: int64,
    more: bool,
    kvs: seq<Option<KeyValue>>)

  /** The source reads `response.Header.Revision`, a nil dereference when the header is missing. */
  predicate RangeHeaderPresent(w: Option<WireRangeResponse>)
  {
    w.Some? ==> w.value.header.Some?
  }

  /**
   * What `deserializeRangeResponse` returns: nil stays nil, the revision comes
   * from the header, Count and More are copied and the key-values keep their
   * length and order.
   */
  function RangeResponseOf(w: Option<WireRangeResponse>): (r: Option<RangeResponse>)
    requires RangeHeaderPresent(w)
    ensures r.None? <==> w.None?
    ensures r.Some? ==> r.value.revision == w.value.header.value.revision
    ensures r.Some? ==> r.value.count == w.value.count && r.value.more == w.value.more
    ensures r.Some? ==> |r.value.kvs| == |w.value.kvs|
    ensures r.Some? ==> forall i :: 0 <= i < |w.value.kvs| ==> r.value.kvs[i] == DeserializeKeyValue(w.value.kvs[i])
  {
    match w
    case None => None
    case Some(v) => Some(RangeResponse(v.header.value.revision, v.count, v.more, KeyValuesOf(v.kvs)))
  }

  /** `deserializeRangeResponse`, with its append loop over the wire key-values. */
  method DeserializeRangeResponse(w: Option<WireRangeResponse>) returns (r: Option<RangeResponse>)
    requires RangeHeaderPresent(w)
    ensures r == RangeResponseOf(w)
  {
    if w.None? {
      return None;
    }
    var v := w.value;
    var kvs: seq<Option<KeyValue>> := [];
    var i := 0;
    while i < |v.kvs|
      invariant 0 <= i <= |v.kvs|
      invariant kvs == KeyValuesOf(v.kvs[..i])
    {
      assert v.kvs[..i + 1][..i] == v.kvs[..i];
      kvs := kvs + [DeserializeKeyValue(v.kvs[i])];
      i := i + 1;
    }
    assert v.kvs[..i] == v.kvs;
    r := Some(RangeResponse(v.header.value.revision, v.count, v.more, kvs));
  }

  /** What a server at `resp.revision` puts on the wire for `resp`. */
  function EncodeRangeResponse(resp: RangeResponse): WireRangeResponse
  {
    WireRangeResponse(Some(HeaderAt(resp.revision)), EncodeKeyValues(resp.kvs), resp.more, resp.count)
  }

  /** Deserialising what the server encodes gives the response back. */
  lemma RangeResponseOfEncoded(resp: RangeResponse)
    ensures RangeResponseOf(Some(EncodeRangeResponse(resp))) == Some(resp)
  {
    KeyValuesOfEncoded(resp.kvs);
  }

  /**
   * `Range`: serialise, call the remote Range, and deserialise. A transport
   * error comes back unchanged with no response. The server is assumed to put
   * a header on every response it returns.
   */
  method Range(client: KVClient, request: Option<RangeRequest>) returns (r: Result<Option<RangeResponse>, Error>)
    requires client.range(SerializeRangeRequest(request)).Success? ==>
               RangeHeaderPresent(client.range(SerializeRangeRequest(request)).value)
    ensures client.range(SerializeRangeRequest(request)).Failure? ==>
              r == Failure(client.range(SerializeRangeRequest(request)).error)
    ensures client.range(SerializeRangeRequest(request)).Success? ==>
              r == Success(RangeResponseOf(client.range(SerializeRangeRequest(request)).value))
  {
    var reply := client.range(SerializeRangeRequest(request));
    if reply.Failure? {
      return Failure(reply.error);
    }
    var response := DeserializeRangeResponse(reply.value);
    r := Success(response);
  }
}
