/** `CompactRequest`, `CompactResponse` and the `Compact` call (pkg/etcd/compact.go). */
module Compacts {
  import opened Wrappers
  import opened GoTypes
  import opened Wire

  datatype CompactRequest = CompactRequest(
    revision: int64,
    physical: bool)

  /** `serializeCompactRequest`: total (it takes a value, never nil); Revision and Physical are copied. */
  function SerializeCompactRequest(request: CompactRequest): (w: WireCompactionRequest)
    ensures w.revision == request.revision && w.physical == request.physical
  {
    WireCompactionRequest(request.revision, request.physical)
  }

  datatype CompactResponse = CompactResponse(revision: int64)

  predicate CompactHeaderPresent(w: Option<WireCompactionResponse>)
  {
    w.Some? ==> w.value.header.Some?
  }

  /** `deserializeCompactResponse`: nil stays nil and the revision comes from the header. */
  function DeserializeCompactResponse(w: Option<WireCompactionResponse>): (r: Option<CompactResponse>)
    requires CompactHeaderPresent(w)
    ensures r.None? <==> w.None?
    ensures r.Some? ==> r.value.revision == w.value.header.value.revision
  {
    match w
    case None => None
    case Some(v) => Some(CompactResponse(v.header.value.revision))
  }

  /** Deserialising the response of a server at revision `rev` gives a response at `rev`. */
  lemma DeserializeCompactResponseAt(rev: int64, clusterId: uint64, memberId: uint64, raftTerm: uint64)
    ensures DeserializeCompactResponse(Some(WireCompactionResponse(Some(ResponseHeader(clusterId, memberId, rev, raftTerm)))))
              == Some(CompactResponse(rev))
  {
  }

  /**
   * `Compact`: serialise, call the remote Compact, and deserialise. A transport
   * error comes back unchanged with no response.
   */
  function Compact(client: KVClient, request: CompactRequest): (r: Result<Option<CompactResponse>, Error>)
    requires client.compact(Some(SerializeCompactRequest(request))).Success? ==>
               CompactHeaderPresent(client.compact(Some(SerializeCompactRequest(request))).value)
    ensures client.compact(Some(SerializeCompactRequest(request))).Failure? ==>
              r == Failure(client.compact(Some(SerializeCompactRequest(request))).error)
    ensures client.compact(Some(SerializeCompactRequest(request))).Success? ==>
              r == Success(DeserializeCompactResponse(client.compact(Some(SerializeCompactRequest(request))).value))
  {
    match client.compact(Some(SerializeCompactRequest(request)))
    case Failure(e) => Failure(e)
    case Success(response) => Success(DeserializeCompactResponse(response))
  }
}
