/**
 * Transactions and the closed Request/Response variant sets (pkg/etcd/txn.go,
 * with the `Request`/`Response` interfaces of pkg/etcd/client.go). A Go
 * interface value holding a pointer becomes a variant holding an Option, so a
 * typed nil pointer stays representable.
 */
module Txns {
  import opened Wrappers
  import opened GoTypes
  import opened Wire
  import opened KeyValues
  import opened Compares
  import opened Ranges
  import opened Puts
  import opened Deletes
  import opened Compacts

  datatype TxnRequest = TxnRequest(
    compare: seq<Compare>,
    success: seq<Request>,
    failure: seq<Request>)

  /** The `Request` interface: `*RangeRequest`, `*PutRequest`, `*DeleteRequest`, `*TxnRequest` or a compaction. */
  datatype Request =
    | RangeReq(range: Option<RangeRequest>)
    | PutReq(put: Option<PutRequest>)
    | DeleteReq(delete: Option<DeleteRequest>)
    | TxnReq(txn: Option<TxnRequest>)
    | CompactReq(compact: CompactRequest)

  datatype TxnResponse = TxnResponse(
    revision: int64,
    succeeded: bool,
    responses: seq<Response>)

  /** The `Response` interface, one variant per response type. */
  datatype Response =
    | RangeResp(range: RangeResponse)
    | PutResp(put: PutResponse)
    | DeleteResp(delete: DeleteResponse)
    | TxnResp(txn: TxnResponse)
    | CompactResp(compact: CompactResponse)

  // ---------------------------------------------------------------------------
  // Serialisation

  /**
   * The requests `serializeRequestOp` accepts without panicking: no compaction
   * anywhere inside (the dispatch has no case for it) and every compare with a
   * target (`serializeCompare` panics otherwise).
   */
  predicate Serializable(r: Request)
    decreases r
  {
    match r
    case CompactReq(_) => false
    case TxnReq(t) => t.None? || TxnSerializable(t.value)
    case _ => true
  }

  predicate TxnSerializable(t: TxnRequest)
    decreases t
  {
    && (forall i :: 0 <= i < |t.compare| ==> HasTarget(t.compare[i]))
    && (forall i :: 0 <= i < |t.success| ==> Serializable(t.success[i]))
    && (forall i :: 0 <= i < |t.failure| ==> Serializable(t.failure[i]))
  }

  /** The wire op `serializeRequestOp` builds: the variant picks the matching RequestOp case. */
  function RequestOpOf(r: Request): (op: RequestOp)
    requires Serializable(r)
    ensures !op.RequestUnset?
    ensures r.RangeReq? <==> op.RequestRange?
    ensures r.PutReq? <==> op.RequestPut?
    ensures r.DeleteReq? <==> op.RequestDeleteRange?
    ensures r.TxnReq? <==> op.RequestTxn?
    ensures r.RangeReq? ==> op.range == SerializeRangeRequest(r.range)
    ensures r.PutReq? ==> op.put == SerializePutRequest(r.put)
    ensures r.DeleteReq? ==> op.deleteRange == SerializeDeleteRequest(r.delete)
    ensures r.TxnReq? ==> op.txn == TxnRequestOf(r.txn)
    decreases r
  {
    match r
    case RangeReq(q) => RequestRange(SerializeRangeRequest(q))
    case PutReq(p) => RequestPut(SerializePutRequest(p))
    case DeleteReq(d) => RequestDeleteRange(SerializeDeleteRequest(d))
    case TxnReq(t) => RequestTxn(TxnRequestOf(t))
  }

  /** The wire transaction `serializeTxnRequest` builds: nil stays nil, each list mapped in order. */
  function TxnRequestOf(t: Option<TxnRequest>): (w: Option<WireTxnRequest>)
    requires t.Some? ==> TxnSerializable(t.value)
    ensures w.None? <==> t.None?
    ensures w.Some? ==> && |w.value.compare| == |t.value.compare|
                        && |w.value.success| == |t.value.success|
                        && |w.value.failure| == |t.value.failure|
    ensures w.Some? ==> forall i :: 0 <= i < |t.value.compare| ==> w.value.compare[i] == SerializeCompare(t.value.compare[i])
    ensures w.Some? ==> forall i :: 0 <= i < |t.value.success| ==> w.value.success[i] == RequestOpOf(t.value.success[i])
    ensures w.Some? ==> forall i :: 0 <= i < |t.value.failure| ==> w.value.failure[i] == RequestOpOf(t.value.failure[i])
    decreases t
  {
    match t
    case None => None
    case Some(v) =>
      Some(WireTxnRequest(
        seq(|v.compare|, i requires 0 <= i < |v.compare| && HasTarget(v.compare[i]) => SerializeCompare(v.compare[i])),
        seq(|v.success|, i requires 0 <= i < |v.success| && Serializable(v.success[i]) => RequestOpOf(v.success[i])),
        seq(|v.failure|, i requires 0 <= i < |v.failure| && Serializable(v.failure[i]) => RequestOpOf(v.failure[i]))))
  }

  /** `serializeRequestOp`: dispatch on the variant. */
  method SerializeRequestOp(r: Request) returns (op: RequestOp)
    requires Serializable(r)
    ensures op == RequestOpOf(r)
    decreases r
  {
    match r
    case RangeReq(q) =>
      op := RequestRange(SerializeRangeRequest(q));
    case PutReq(p) =>
      op := RequestPut(SerializePutRequest(p));
    case DeleteReq(d) =>
      op := RequestDeleteRange(SerializeDeleteRequest(d));
    case TxnReq(t) =>
      var w := SerializeTxnRequest(t);
      op := RequestTxn(w);
  }

  /** `serializeTxnRequest`: nil stays nil; compares, success and failure ops appended in order. */
  method SerializeTxnRequest(t: Option<TxnRequest>) returns (w: Option<WireTxnRequest>)
    requires t.Some? ==> TxnSerializable(t.value)
    ensures w == TxnRequestOf(t)
    decreases t
  {
    if t.None? {
      return None;
    }
    var v := t.value;
    var compare: seq<WireCompare> := [];
    var i := 0;
    while i < |v.compare|
      invariant 0 <= i <= |v.compare|
      invariant |compare| == i
      invariant forall k :: 0 <= k < i ==> compare[k] == SerializeCompare(v.compare[k])
    {
      compare := compare + [SerializeCompare(v.compare[i])];
      i := i + 1;
    }
    var success: seq<RequestOp> := [];
    i := 0;
    while i < |v.success|
      invariant 0 <= i <= |v.success|
      invariant |success| == i
      invariant forall k :: 0 <= k < i ==> success[k] == RequestOpOf(v.success[k])
    {
      var op := SerializeRequestOp(v.success[i]);
      success := success + [op];
      i := i + 1;
    }
    var failure: seq<RequestOp> := [];
    i := 0;
    while i < |v.failure|
      invariant 0 <= i <= |v.failure|
      invariant |failure| == i
      invariant forall k :: 0 <= k < i ==> failure[k] == RequestOpOf(v.failure[k])
    {
      var op := SerializeRequestOp(v.failure[i]);
      failure := failure + [op];
      i := i + 1;
    }
    assert compare == TxnRequestOf(t).value.compare;
    assert success == TxnRequestOf(t).value.success;
    assert failure == TxnRequestOf(t).value.failure;
    w := Some(WireTxnRequest(compare, success, failure));
  }

  /** How a server reads a wire op back into a client request: the reference inverse. */
  function RequestFromOp(op: RequestOp): Option<Request>
    decreases op
  {
    match op
    case RequestUnset => None
    case RequestRange(w) => Some(RangeReq(if w.Some? then Some(RangeRequestOf(w.value)) else None))
    case RequestPut(w) => Some(PutReq(if w.Some? then Some(PutRequestFromWire(w.value)) else None))
    case RequestDeleteRange(w) => Some(DeleteReq(if w.Some? then Some(DeleteRequestFromWire(w.value)) else None))
    case RequestTxn(w) =>
      if w.None? then Some(TxnReq(None))
      else
        var t := TxnFromWire(w.value);
        if t.None? then None else Some(TxnReq(Some(t.value)))
  }

  /** A wire transaction read back: None when some compare or op has no client form. */
  function TxnFromWire(w: WireTxnRequest): Option<TxnRequest>
    decreases w
  {
    var cs := seq(|w.compare|, i requires 0 <= i < |w.compare| => CompareOf(w.compare[i]));
    var ss := seq(|w.success|, i requires 0 <= i < |w.success| => RequestFromOp(w.success[i]));
    var fs := seq(|w.failure|, i requires 0 <= i < |w.failure| => RequestFromOp(w.failure[i]));
    if (forall i :: 0 <= i < |cs| ==> cs[i].Some?)
       && (forall i :: 0 <= i < |ss| ==> ss[i].Some?)
       && (forall i :: 0 <= i < |fs| ==> fs[i].Some?)
    then
      Some(TxnRequest(seq(|cs|, i requires 0 <= i < |cs| && cs[i].Some? => cs[i].value),
                      seq(|ss|, i requires 0 <= i < |ss| && ss[i].Some? => ss[i].value),
                      seq(|fs|, i requires 0 <= i < |fs| && fs[i].Some? => fs[i].value)))
    else None
  }

  /** Every compare inside the request sets exactly one target. */
  predicate SingleTargets(r: Request)
    decreases r
  {
    match r
    case TxnReq(t) => t.None? || TxnSingleTargets(t.value)
    case _ => true
  }

  predicate TxnSingleTargets(t: TxnRequest)
    decreases t
  {
    && (forall i :: 0 <= i < |t.compare| ==> SingleTarget(t.compare[i]))
    && (forall i :: 0 <= i < |t.success| ==> SingleTargets(t.success[i]))
    && (forall i :: 0 <= i < |t.failure| ==> SingleTargets(t.failure[i]))
  }

  /**
   * Serialisation of a request, however deeply its transactions nest, loses
   * nothing when every compare sets exactly one target: reading the wire op back
   * gives the request.
   */
  lemma {:induction false} RequestRoundTrip(r: Request)
    requires Serializable(r) && SingleTargets(r)
    ensures RequestFromOp(RequestOpOf(r)) == Some(r)
    decreases r, 1
  {
    match r
    case TxnReq(t) =>
      if t.Some? {
        TxnRoundTrip(t.value);
      }
    case _ =>
  }

  lemma {:induction false} TxnRoundTrip(t: TxnRequest)
    requires TxnSerializable(t) && TxnSingleTargets(t)
    ensures TxnFromWire(TxnRequestOf(Some(t)).value) == Some(t)
    decreases t, 0
  {
    var w := TxnRequestOf(Some(t)).value;
    forall i | 0 <= i < |t.compare| ensures CompareOf(w.compare[i]) == Some(t.compare[i]) {
      CompareRoundTripIffSingleTarget(t.compare[i]);
    }
    forall i | 0 <= i < |t.success| ensures RequestFromOp(w.success[i]) == Some(t.success[i]) {
      RequestRoundTrip(t.success[i]);
    }
    forall i | 0 <= i < |t.failure| ensures RequestFromOp(w.failure[i]) == Some(t.failure[i]) {
      RequestRoundTrip(t.failure[i]);
    }
    var cs := seq(|w.compare|, i requires 0 <= i < |w.compare| => CompareOf(w.compare[i]));
    var ss := seq(|w.success|, i requires 0 <= i < |w.success| => RequestFromOp(w.success[i]));
    var fs := seq(|w.failure|, i requires 0 <= i < |w.failure| => RequestFromOp(w.failure[i]));
    assert seq(|cs|, i requires 0 <= i < |cs| && cs[i].Some? => cs[i].value) == t.compare;
    assert seq(|ss|, i requires 0 <= i < |ss| && ss[i].Some? => ss[i].value) == t.success;
    assert seq(|fs|, i requires 0 <= i < |fs| && fs[i].Some? => fs[i].value) == t.failure;
  }

  // ---------------------------------------------------------------------------
  // Responses

  /** `GetRevision()` of every response type. */
  function Revision(r: Response): int64
  {
    match r
    case RangeResp(x) => x.revision
    case PutResp(x) => x.revision
    case DeleteResp(x) => x.revision
    case TxnResp(x) => x.revision
    case CompactResp(x) => x.revision
  }

  /**
   * `IsWrite()` of every response type: a put always writes, a delete iff it
   * deleted something, a range or a compaction never, and a transaction iff
   * one of its nested responses does.
   */
  predicate IsWrite(r: Response)
    decreases r
  {
    match r
    case PutResp(_) => true
    case DeleteResp(d) => d.deleted != 0
    case RangeResp(_) => false
    case CompactResp(_) => false
    case TxnResp(t) => exists i :: 0 <= i < |t.responses| && IsWrite(t.responses[i])
  }

  /** `IsWrite()` dispatched on the variant. */
  method ResponseIsWrite(r: Response) returns (w: bool)
    ensures w == IsWrite(r)
    decreases r, 1
  {
    match r
    case PutResp(_) =>
      w := true;
    case DeleteResp(d) =>
      w := d.deleted != 0;
    case RangeResp(_) =>
      w := false;
    case CompactResp(_) =>
      w := false;
    case TxnResp(t) =>
      w := TxnIsWrite(t);
  }

  /**
   * `TxnResponse.IsWrite`: `result = result || response.IsWrite()` over the
   * nested responses; Go's `||` stops asking once a write was seen.
   */
  method TxnIsWrite(t: TxnResponse) returns (result: bool)
    ensures result == IsWrite(TxnResp(t))
    decreases t, 0
  {
    result := false;
    var i := 0;
    while i < |t.responses|
      invariant 0 <= i <= |t.responses|
      invariant result <==> exists k :: 0 <= k < i && IsWrite(t.responses[k])
    {
      if !result {
        result := ResponseIsWrite(t.responses[i]);
      }
      i := i + 1;
    }
  }

  /** A transaction with no nested responses is not a write, whatever its branch. */
  lemma EmptyTxnIsNotWrite(revision: int64, succeeded: bool)
    ensures !IsWrite(TxnResp(TxnResponse(revision, succeeded, [])))
  {
  }

  /**
   * The ops `deserializeRequestOp` accepts without panicking: one of the four
   * cases holds a non-nil response that has a header, recursively.
   */
  predicate Decodable(op: ResponseOp)
    decreases op
  {
    match op
    case ResponseUnset => false
    case ResponseRange(x) => x.Some? && x.value.header.Some?
    case ResponsePut(x) => x.Some? && x.value.header.Some?
    case ResponseDeleteRange(x) => x.Some? && x.value.header.Some?
    case ResponseTxn(x) => x.Some? && TxnDecodable(x.value)
  }

  predicate TxnDecodable(w: WireTxnResponse)
    decreases w
  {
    w.header.Some? && forall i :: 0 <= i < |w.responses| ==> Decodable(w.responses[i])
  }

  /** What `deserializeRequestOp` returns: the populated case routed to its deserialiser. */
  function ResponseOf(op: ResponseOp): (r: Response)
    requires Decodable(op)
    decreases op
  {
    match op
    case ResponseDeleteRange(x) => DeleteResp(DeleteResponseOf(x).value)
    case ResponsePut(x) => PutResp(DeserializePutResponse(x).value)
    case ResponseRange(x) => RangeResp(RangeResponseOf(x).value)
    case ResponseTxn(x) => TxnResp(TxnResponseOf(x).value)
  }

  /**
   * What `deserializeTxnResponse` returns: nil stays nil, the revision comes
   * from the header, Succeeded is copied and the nested responses keep their
   * length and order.
   */
  function TxnResponseOf(w: Option<WireTxnResponse>): (r: Option<TxnResponse>)
    requires w.Some? ==> TxnDecodable(w.value)
    ensures r.None? <==> w.None?
    ensures r.Some? ==> r.value.revision == w.value.header.value.revision && r.value.succeeded == w.value.succeeded
    ensures r.Some? ==> |r.value.responses| == |w.value.responses|
    ensures r.Some? ==> forall i :: 0 <= i < |w.value.responses| ==> r.value.responses[i] == ResponseOf(w.value.responses[i])
    decreases w
  {
    match w
    case None => None
    case Some(v) =>
      Some(TxnResponse(v.header.value.revision, v.succeeded,
                       seq(|v.responses|, i requires 0 <= i < |v.responses| && Decodable(v.responses[i]) =>
                             ResponseOf(v.responses[i]))))
  }

  /** `deserializeRequestOp`. */
  method DeserializeResponseOp(op: ResponseOp) returns (r: Response)
    requires Decodable(op)
    ensures r == ResponseOf(op)
    decreases op, 1
  {
    match op
    case ResponseDeleteRange(x) =>
      var d := DeserializeDeleteResponse(x);
      r := DeleteResp(d.value);
    case ResponsePut(x) =>
      r := PutResp(DeserializePutResponse(x).value);
    case ResponseRange(x) =>
      var q := DeserializeRangeResponse(x);
      r := RangeResp(q.value);
    case ResponseTxn(x) =>
      var t := DeserializeTxnResponse(x);
      r := TxnResp(t.value);
  }

  /** `deserializeTxnResponse`, with its append loop over the nested responses. */
  method DeserializeTxnResponse(w: Option<WireTxnResponse>) returns (r: Option<TxnResponse>)
    requires w.Some? ==> TxnDecodable(w.value)
    ensures r == TxnResponseOf(w)
    decreases w, 0
  {
    if w.None? {
      return None;
    }
    var v := w.value;
    var responses: seq<Response> := [];
    var i := 0;
    while i < |v.responses|
      invariant 0 <= i <= |v.responses|
      invariant |responses| == i
      invariant forall k :: 0 <= k < i ==> responses[k] == ResponseOf(v.responses[k])
    {
      var response := DeserializeResponseOp(v.responses[i]);
      responses := responses + [response];
      i := i + 1;
    }
    assert responses == TxnResponseOf(w).value.responses;
    r := Some(TxnResponse(v.header.value.revision, v.succeeded, responses));
  }

  /** The revision of every deserialised response is the one in its wire header. */
  lemma RevisionFromHeader(op: ResponseOp)
    requires Decodable(op)
    ensures op.ResponseRange? ==> Revision(ResponseOf(op)) == op.range.value.header.value.revision
    ensures op.ResponsePut? ==> Revision(ResponseOf(op)) == op.put.value.header.value.revision
    ensures op.ResponseDeleteRange? ==> Revision(ResponseOf(op)) == op.deleteRange.value.header.value.revision
    ensures op.ResponseTxn? ==>
              op.txn.value.header.Some? && Revision(ResponseOf(op)) == op.txn.value.header.value.revision
  {
  }

  /** No compaction is ever produced by deserialisation: the dispatch has no case for it. */
  predicate NoCompaction(r: Response)
    decreases r
  {
    match r
    case CompactResp(_) => false
    case TxnResp(t) => forall i :: 0 <= i < |t.responses| ==> NoCompaction(t.responses[i])
    case _ => true
  }

  lemma {:induction false} DeserializedHasNoCompaction(op: ResponseOp)
    requires Decodable(op)
    ensures NoCompaction(ResponseOf(op))
    decreases op
  {
    if op.ResponseTxn? {
      var v := op.txn.value;
      forall i | 0 <= i < |v.responses| ensures NoCompaction(ResponseOf(v.responses[i])) {
        DeserializedHasNoCompaction(v.responses[i]);
      }
    }
  }

  /** What a server puts on the wire for a response (no compaction inside): the reference inverse. */
  function EncodeResponseOp(r: Response): (op: ResponseOp)
    requires NoCompaction(r)
    decreases r
  {
    match r
    case RangeResp(x) => ResponseRange(Some(EncodeRangeResponse(x)))
    case PutResp(x) => ResponsePut(Some(EncodePutResponse(x)))
    case DeleteResp(x) => ResponseDeleteRange(Some(EncodeDeleteResponse(x)))
    case TxnResp(t) =>
      ResponseTxn(Some(WireTxnResponse(
        Some(HeaderAt(t.revision)), t.succeeded,
        seq(|t.responses|, i requires 0 <= i < |t.responses| && NoCompaction(t.responses[i]) =>
              EncodeResponseOp(t.responses[i])))))
  }

  /**
   * Deserialising what a server encodes gives the response back, through any
   * depth of nested transactions.
   */
  lemma {:induction false} ResponseRoundTrip(r: Response)
    requires NoCompaction(r)
    ensures Decodable(EncodeResponseOp(r)) && ResponseOf(EncodeResponseOp(r)) == r
    decreases r
  {
    match r
    case RangeResp(x) => RangeResponseOfEncoded(x);
    case PutResp(x) => DeserializeEncodedPutResponse(x);
    case DeleteResp(x) => DeleteResponseOfEncoded(x);
    case TxnResp(t) =>
      var w := EncodeResponseOp(r).txn.value;
      forall i | 0 <= i < |t.responses|
        ensures Decodable(w.responses[i]) && ResponseOf(w.responses[i]) == t.responses[i]
      {
        ResponseRoundTrip(t.responses[i]);
      }
  }

  /**
   * `Txn`: serialise, call the remote Txn, and deserialise. A transport error
   * comes back unchanged with no response.
   */
  method Txn(client: KVClient, request: Option<TxnRequest>) returns (r: Result<Option<TxnResponse>, Error>)
    requires request.Some? ==> TxnSerializable(request.value)
    requires client.txn(TxnRequestOf(request)).Success? && client.txn(TxnRequestOf(request)).value.Some? ==>
               TxnDecodable(client.txn(TxnRequestOf(request)).value.value)
    ensures client.txn(TxnRequestOf(request)).Failure? ==> r == Failure(client.txn(TxnRequestOf(request)).error)
    ensures client.txn(TxnRequestOf(request)).Success? ==>
              r == Success(TxnResponseOf(client.txn(TxnRequestOf(request)).value))
  {
    var wire := SerializeTxnRequest(request);
    var reply := client.txn(wire);
    if reply.Failure? {
      return Failure(reply.error);
    }
    var response := DeserializeTxnResponse(reply.value);
    r := Success(response);
  }
}
