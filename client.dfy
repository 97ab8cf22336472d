/** The call policy and the `Do` dispatcher (pkg/etcd/client.go). */
module Client {
  import opened Wrappers
  import opened GoTypes
  import opened Wire
  import opened Ranges
  import opened Puts
  import opened Deletes
  import opened Compacts
  import opened Txns

  /** The gRPC call options every KV call carries. */
  datatype CallOptions = CallOptions(waitForReady: bool, maxCallSendMsgSize: nat, maxCallRecvMsgSize: nat)

  /** `defaultCallOpts`: wait for a ready connection, send at most 2 MiB, receive at most 4 MiB. */
  const DefaultCallOpts: CallOptions := CallOptions(true, 2 * 1024 * 1024, 4 * 1024 * 1024)

  /** The response variant answers the request variant. */
  predicate Matches(request: Request, response: Response)
  {
    match request
    case RangeReq(_) => response.RangeResp?
    case PutReq(_) => response.PutResp?
    case DeleteReq(_) => response.DeleteResp?
    case TxnReq(_) => response.TxnResp?
    case CompactReq(_) => response.CompactResp?
  }

  /**
   * What `Do` needs to run without panicking: a serialisable transaction and
   * a header on every response the server returns.
   */
  predicate CanDo(client: KVClient, request: Request)
  {
    match request
    case RangeReq(q) =>
      client.range(SerializeRangeRequest(q)).Success? ==> RangeHeaderPresent(client.range(SerializeRangeRequest(q)).value)
    case PutReq(p) =>
      client.put(SerializePutRequest(p)).Success? ==> PutHeaderPresent(client.put(SerializePutRequest(p)).value)
    case DeleteReq(d) =>
      client.deleteRange(SerializeDeleteRequest(d)).Success? ==>
        DeleteHeaderPresent(client.deleteRange(SerializeDeleteRequest(d)).value)
    case TxnReq(t) =>
      (t.Some? ==> TxnSerializable(t.value)) &&
      (client.txn(TxnRequestOf(t)).Success? && client.txn(TxnRequestOf(t)).value.Some? ==>
         TxnDecodable(client.txn(TxnRequestOf(t)).value.value))
    case CompactReq(c) =>
      client.compact(Some(SerializeCompactRequest(c))).Success? ==>
        CompactHeaderPresent(client.compact(Some(SerializeCompactRequest(c))).value)
  }

  /** The error, if any, that the remote operation matching the request reports. */
  function TransportError(client: KVClient, request: Request): Option<Error>
    requires CanDo(client, request)
  {
    var failed := match request
      case RangeReq(q) => client.range(SerializeRangeRequest(q)).Failure?
      case PutReq(p) => client.put(SerializePutRequest(p)).Failure?
      case DeleteReq(d) => client.deleteRange(SerializeDeleteRequest(d)).Failure?
      case TxnReq(t) => client.txn(TxnRequestOf(t)).Failure?
      case CompactReq(c) => client.compact(Some(SerializeCompactRequest(c))).Failure?;
    if !failed then None
    else match request
      case RangeReq(q) => Some(client.range(SerializeRangeRequest(q)).error)
      case PutReq(p) => Some(client.put(SerializePutRequest(p)).error)
      case DeleteReq(d) => Some(client.deleteRange(SerializeDeleteRequest(d)).error)
      case TxnReq(t) => Some(client.txn(TxnRequestOf(t)).error)
      case CompactReq(c) => Some(client.compact(Some(SerializeCompactRequest(c))).error)
  }

  /**
   * The outcome `Do` promises: the matching operation's error unchanged, or its
   * response (nil staying nil) as the matching Response variant.
   */
  function Dispatched(client: KVClient, request: Request): (r: Result<Option<Response>, Error>)
    requires CanDo(client, request)
    ensures r.Failure? <==> TransportError(client, request).Some?
    ensures r.Failure? ==> r.error == TransportError(client, request).value
    ensures r.Success? && r.value.Some? ==> Matches(request, r.value.value)
    ensures request.RangeReq? && client.range(SerializeRangeRequest(request.range)).Success? ==>
              var d := RangeResponseOf(client.range(SerializeRangeRequest(request.range)).value);
              r.Success? && (r.value.None? <==> d.None?) && (d.Some? ==> r.value.value == RangeResp(d.value))
    ensures request.PutReq? && Put(client, request.put).Success? ==>
              var d := Put(client, request.put).value;
              r.Success? && (r.value.None? <==> d.None?) && (d.Some? ==> r.value.value == PutResp(d.value))
    ensures request.DeleteReq? && client.deleteRange(SerializeDeleteRequest(request.delete)).Success? ==>
              var d := DeleteResponseOf(client.deleteRange(SerializeDeleteRequest(request.delete)).value);
              r.Success? && (r.value.None? <==> d.None?) && (d.Some? ==> r.value.value == DeleteResp(d.value))
    ensures request.TxnReq? && client.txn(TxnRequestOf(request.txn)).Success? ==>
              var d := TxnResponseOf(client.txn(TxnRequestOf(request.txn)).value);
              r.Success? && (r.value.None? <==> d.None?) && (d.Some? ==> r.value.value == TxnResp(d.value))
    ensures request.CompactReq? && Compact(client, request.compact).Success? ==>
              var d := Compact(client, request.compact).value;
              r.Success? && (r.value.None? <==> d.None?) && (d.Some? ==> r.value.value == CompactResp(d.value))
  {
    match request
    case RangeReq(q) =>
      (match client.range(SerializeRangeRequest(q))
       case Failure(e) => Failure(e)
       case Success(w) => var d := RangeResponseOf(w); Success(if d.Some? then Some(RangeResp(d.value)) else None))
    case PutReq(p) =>
      (match Put(client, p)
       case Failure(e) => Failure(e)
       case Success(d) => Success(if d.Some? then Some(PutResp(d.value)) else None))
    case DeleteReq(x) =>
      (match client.deleteRange(SerializeDeleteRequest(x))
       case Failure(e) => Failure(e)
       case Success(w) => var d := DeleteResponseOf(w); Success(if d.Some? then Some(DeleteResp(d.value)) else None))
    case TxnReq(t) =>
      (match client.txn(TxnRequestOf(t))
       case Failure(e) => Failure(e)
       case Success(w) => var d := TxnResponseOf(w); Success(if d.Some? then Some(TxnResp(d.value)) else None))
    case CompactReq(c) =>
      (match Compact(client, c)
       case Failure(e) => Failure(e)
       case Success(d) => Success(if d.Some? then Some(CompactResp(d.value)) else None))
  }

  /** `Do`: a type switch that forwards the request to the one matching call. */
  method Do(client: KVClient, request: Request) returns (r: Result<Option<Response>, Error>)
    requires CanDo(client, request)
    ensures r == Dispatched(client, request)
  {
    match request
    case CompactReq(c) =>
      var x := Compact(client, c);
      r := if x.Failure? then Failure(x.error)
           else Success(if x.value.Some? then Some(CompactResp(x.value.value)) else None);
    case DeleteReq(d) =>
      var x := Delete(client, d);
      r := if x.Failure? then Failure(x.error)
           else Success(if x.value.Some? then Some(DeleteResp(x.value.value)) else None);
    case PutReq(p) =>
      var x := Put(client, p);
      r := if x.Failure? then Failure(x.error)
           else Success(if x.value.Some? then Some(PutResp(x.value.value)) else None);
    case RangeReq(q) =>
      var x := Range(client, q);
      r := if x.Failure? then Failure(x.error)
           else Success(if x.value.Some? then Some(RangeResp(x.value.value)) else None);
    case TxnReq(t) =>
      var x := Txn(client, t);
      r := if x.Failure? then Failure(x.error)
           else Success(if x.value.Some? then Some(TxnResp(x.value.value)) else None);
  }
}
