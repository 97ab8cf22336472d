/**
 * The etcd v3 wire records (the generated `etcdserverpb` and `mvccpb` Go types)
 * that the client serialises into and deserialises out of, and the remote KV
 * service as an abstract capability. Every field of the wire messages that the
 * client touches or deliberately leaves at its zero value is present, so that
 * the model can say which fields are copied and which are dropped.
 */
module Wire {
  import opened Wrappers
  import opened GoTypes

  type bytes = seq<byte>

  /** `etcdserverpb.Compare_CompareResult`: EQUAL = 0, GREATER = 1, LESS = 2, NOT_EQUAL = 3. */
  datatype CompareResult = Equal | Greater | Less | NotEqual

  /** `etcdserverpb.Compare_CompareTarget`: VERSION = 0, CREATE = 1, MOD = 2, VALUE = 3, LEASE = 4. */
  datatype CompareTarget = VersionTarget | CreateTarget | ModTarget | ValueTarget | LeaseTarget

  /** The `target_union` oneof of `etcdserverpb.Compare`. */
  datatype TargetUnion =
    | UnionVersion(version: int64)
    | UnionCreateRevision(createRevision: int64)
    | UnionModRevision(modRevision: int64)
    | UnionValue(value: bytes)
    | UnionLease(lease: int64)

  /** `etcdserverpb.Compare`. */
  datatype WireCompare = WireCompare(
    result: CompareResult,
    target: CompareTarget,
    key: bytes,
    targetUnion: Option<TargetUnion>,
    rangeEnd: bytes)

  /** `etcdserverpb.RangeRequest_SortTarget`: KEY = 0, VERSION = 1, CREATE = 2, MOD = 3, VALUE = 4. */
  datatype SortTarget = SortByKey | SortByVersion | SortByCreate | SortByMod | SortByValue

  /** `etcdserverpb.RangeRequest_SortOrder`: NONE = 0, ASCEND = 1, DESCEND = 2. */
  datatype SortOrder = SortNone | Ascend | Descend

  /** `mvccpb.KeyValue`. */
  datatype WireKeyValue = WireKeyValue(
    key: bytes,
    createRevision: int64,
    modRevision: int64,
    version: int64,
    value: bytes,
    lease: int64)

  /** `etcdserverpb.ResponseHeader`. */
  datatype ResponseHeader = ResponseHeader(
    clusterId: uint64,
    memberId: uint64,
    revision: int64,
    raftTerm: uint64)

  /** `etcdserverpb.RangeRequest`. */
  datatype WireRangeRequest = WireRangeRequest(
    key: bytes,
    rangeEnd: bytes,
    limit: int64,
    revision: int64,
    sortOrder: SortOrder,
    sortTarget: SortTarget,
    serializable: bool,
    keysOnly: bool,
    countOnly: bool,
    minModRevision: int64,
    maxModRevision: int64,
    minCreateRevision: int64,
    maxCreateRevision: int64)

  /** `etcdserverpb.RangeResponse`; `kvs` is a slice of possibly nil pointers. */
  datatype WireRangeResponse = WireRangeResponse(
    header: Option<ResponseHeader>,
    kvs: seq<Option<WireKeyValue>>,
    more: bool,
    count: int64)

  /** `etcdserverpb.PutRequest`. */
  datatype WirePutRequest = WirePutRequest(
    key: bytes,
    value: bytes,
    lease: int64,
    prevKv: bool,
    ignoreValue: bool,
    ignoreLease: bool)

  /** `etcdserverpb.PutResponse`. */
  datatype WirePutResponse = WirePutResponse(
    header: Option<ResponseHeader>,
    prevKv: Option<WireKeyValue>)

  /** `etcdserverpb.DeleteRangeRequest`. */
  datatype WireDeleteRangeRequest = WireDeleteRangeRequest(
    key: bytes,
    rangeEnd: bytes,
    prevKv: bool)

  /** `etcdserverpb.DeleteRangeResponse`. */
  datatype WireDeleteRangeResponse = WireDeleteRangeResponse(
    header: Option<ResponseHeader>,
    deleted: int64,
    prevKvs: seq<Option<WireKeyValue>>)

  /** `etcdserverpb.CompactionRequest`. */
  datatype WireCompactionRequest = WireCompactionRequest(
    revision: int64,
    physical: bool)

  /** `etcdserverpb.CompactionResponse`. */
  datatype WireCompactionResponse = WireCompactionResponse(
    header: Option<ResponseHeader>)

  /**
   * `etcdserverpb.RequestOp`: its `request` oneof is unset (RequestUnset) or holds
   * one case, whose pointer may itself be nil.
   */
  datatype RequestOp =
    | RequestUnset
    | RequestRange(range: Option<WireRangeRequest>)
    | RequestPut(put: Option<WirePutRequest>)
    | RequestDeleteRange(deleteRange: Option<WireDeleteRangeRequest>)
    | RequestTxn(txn: Option<WireTxnRequest>)

  /** `etcdserverpb.TxnRequest`. */
  datatype WireTxnRequest = WireTxnRequest(
    compare: seq<WireCompare>,
    success: seq<RequestOp>,
    failure: seq<RequestOp>)

  /** `etcdserverpb.ResponseOp`, shaped like RequestOp. */
  datatype ResponseOp =
    | ResponseUnset
    | ResponseRange(range: Option<WireRangeResponse>)
    | ResponsePut(put: Option<WirePutResponse>)
    | ResponseDeleteRange(deleteRange: Option<WireDeleteRangeResponse>)
    | ResponseTxn(txn: Option<WireTxnResponse>)

  /** `etcdserverpb.TxnResponse`. */
  datatype WireTxnResponse = WireTxnResponse(
    header: Option<ResponseHeader>,
    succeeded: bool,
    responses: seq<ResponseOp>)

  /**
   * The remote KV service (`etcdserverpb.KVClient` behind `*Client`), as the
   * abstract capability `invoke(request) -> response | error` per operation.
   * Dialing, contexts and call options are outside the model.
   */
  datatype KVClient = KVClient(
    range: Option<WireRangeRequest> -> Result<Option<WireRangeResponse>, Error>,
    put: Option<WirePutRequest> -> Result<Option<WirePutResponse>, Error>,
    deleteRange: Option<WireDeleteRangeRequest> -> Result<Option<WireDeleteRangeResponse>, Error>,
    txn: Option<WireTxnRequest> -> Result<Option<WireTxnResponse>, Error>,
    compact: Option<WireCompactionRequest> -> Result<Option<WireCompactionResponse>, Error>)

  /** The header a server puts on a response at `revision` (other header fields are not read by the client). */
  function HeaderAt(revision: int64): ResponseHeader
  {
    ResponseHeader(0, 0, revision, 0)
  }
}
