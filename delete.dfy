/** `DeleteRequest`, `DeleteResponse` and the `Delete` call (pkg/etcd/delete.go). */
module Deletes {
  import opened Wrappers
  import opened GoTypes
  import opened Wire
  import opened KeyValues

  datatype DeleteRequest = DeleteRequest(
    key: bytes,
    rangeEnd: bytes,
    prevKv: bool)

  /** How a server reads a wire delete request: the reference inverse of the serialiser. */
  function DeleteRequestFromWire(w: WireDeleteRangeRequest): DeleteRequest
  {
    DeleteRequest(w.key, w.rangeEnd, w.prevKv)
  }

  /** `serializeDeleteRequest`: nil stays nil; Key, RangeEnd and PrevKv are copied. */
  function SerializeDeleteRequest(request: Option<DeleteRequest>): (w: Option<WireDeleteRangeRequest>)
    ensures w.None? <==> request.None?
    ensures w.Some? ==> DeleteRequestFromWire(w.value) == request.value
  {
    match request
    case None => None
    case Some(r) => Some(WireDeleteRangeRequest(r.key, r.rangeEnd, r.prevKv))
  }

  /** The wire request carries every field of the client request and nothing else. */
  lemma SerializeDeleteRequestBijective(w: WireDeleteRangeRequest)
    ensures SerializeDeleteRequest(Some(DeleteRequestFromWire(w))) == Some(w)
  {
  }

  datatype DeleteResponse = DeleteResponse(
    revision: int64,
    deleted: int64,
    prevKvs: seq<Option<KeyValue>>)

  predicate DeleteHeaderPresent(w: Option<WireDeleteRangeResponse>)
  {
    w.Some? ==> w.value.header.Some?
  }

  /**
   * What `deserializeDeleteResponse` returns: nil stays nil, the revision comes
   * from the header, Deleted is copied, and PrevKvs keep their length and order.
   */
  function DeleteResponseOf(w: Option<WireDeleteRangeResponse>): (r: Option<DeleteResponse>)
    requires DeleteHeaderPresent(w)
    ensures r.None? <==> w.None?
    ensures r.Some? ==> r.value.revision == w.value.header.value.revision && r.value.deleted == w.value.deleted
    ensures r.Some? ==> |r.value.prevKvs| == |w.value.prevKvs|
    ensures r.Some? ==> forall i :: 0 <= i < |w.value.prevKvs| ==>
                          r.value.prevKvs[i] == DeserializeKeyValue(w.value.prevKvs[i])
  {
    match w
    case None => None
    case Some(v) => Some(DeleteResponse(v.header.value.revision, v.deleted, KeyValuesOf(v.prevKvs)))
  }

  /** `deserializeDeleteResponse`, with its append loop over the previous key-values. */
  method DeserializeDeleteResponse(w: Option<WireDeleteRangeResponse>) returns (r: Option<DeleteResponse>)
    requires DeleteHeaderPresent(w)
    ensures r == DeleteResponseOf(w)
  {
    if w.None? {
      return None;
    }
    var v := w.value;
    var prevKvs: seq<Option<KeyValue>> := [];
    var i := 0;
    while i < |v.prevKvs|
      invariant 0 <= i <= |v.prevKvs|
      invariant prevKvs == KeyValuesOf(v.prevKvs[..i])
    {
      assert v.prevKvs[..i + 1][..i] == v.prevKvs[..i];
      prevKvs := prevKvs + [DeserializeKeyValue(v.prevKvs[i])];
      i := i + 1;
    }
    assert v.prevKvs[..i] == v.prevKvs;
    r := Some(DeleteResponse(v.header.value.revision, v.deleted, prevKvs));
  }

  /** What a server at `resp.revision` puts on the wire for `resp`. */
  function EncodeDeleteResponse(resp: DeleteResponse): WireDeleteRangeResponse
  {
    WireDeleteRangeResponse(Some(HeaderAt(resp.revision)), resp.deleted, EncodeKeyValues(resp.prevKvs))
  }

  /** Deserialising what the server encodes gives the response back. */
  lemma DeleteResponseOfEncoded(resp: DeleteResponse)
    ensures DeleteResponseOf(Some(EncodeDeleteResponse(resp))) == Some(resp)
  {
    KeyValuesOfEncoded(resp.prevKvs);
  }

  /**
   * `Delete`: serialise, call the remote DeleteRange, and deserialise. A
   * transport error comes back unchanged with no response.
   */
  method Delete(client: KVClient, request: Option<DeleteRequest>) returns (r: Result<Option<DeleteResponse>, Error>)
    requires client.deleteRange(SerializeDeleteRequest(request)).Success? ==>
               DeleteHeaderPresent(client.deleteRange(SerializeDeleteRequest(request)).value)
    ensures client.deleteRange(SerializeDeleteRequest(request)).Failure? ==>
              r == Failure(client.deleteRange(SerializeDeleteRequest(request)).error)
    ensures client.deleteRange(SerializeDeleteRequest(request)).Success? ==>
              r == Success(DeleteResponseOf(client.deleteRange(SerializeDeleteRequest(request)).value))
  {
    var reply := client.deleteRange(SerializeDeleteRequest(request));
    if reply.Failure? {
      return Failure(reply.error);
    }
    var response := DeserializeDeleteResponse(reply.value);
    r := Success(response);
  }
}
