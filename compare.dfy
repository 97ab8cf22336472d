/** The `Compare` predicate, its value-receiver builders and its serialiser (pkg/etcd/compare.go). */
module Compares {
  import opened Wrappers
  import opened GoTypes
  import opened Wire

  /**
   * A transaction guard on one key. Each target is an optional field (a Go
   * pointer); the builders below set them, and the serialiser picks one.
   */
  datatype Compare = Compare(
    key: bytes,
    result: CompareResult,
    modRevision: Option<int64>,
    createRevision: Option<int64>,
    version: Option<int64>,
    value: Option<bytes>)

  /** `Compare{Key: key}`: Go's zero value apart from the key, so EQUAL with no target. */
  function CompareOn(key: bytes): Compare
  {
    Compare(key, Equal, None, None, None, None)
  }

  predicate HasTarget(c: Compare)
  {
    c.modRevision.Some? || c.createRevision.Some? || c.version.Some? || c.value.Some?
  }

  /** Exactly one target is set: the shape the etcd protocol expects. */
  predicate SingleTarget(c: Compare)
  {
    (if c.modRevision.Some? then 1 else 0) + (if c.createRevision.Some? then 1 else 0)
    + (if c.version.Some? then 1 else 0) + (if c.value.Some? then 1 else 0) == 1
  }

  /** `Equal()`: a copy with Result EQUAL; restoring the old Result gives the receiver back. */
  function WithEqual(c: Compare): (r: Compare)
    ensures r.result == Equal && r.(result := c.result) == c
  {
    c.(result := Equal)
  }

  /** `Greater()`: a copy with Result GREATER and nothing else changed. */
  function WithGreater(c: Compare): (r: Compare)
    ensures r.result == Greater && r.(result := c.result) == c
  {
    c.(result := Greater)
  }

  /** `Less()`: a copy with Result LESS and nothing else changed. */
  function WithLess(c: Compare): (r: Compare)
    ensures r.result == Less && r.(result := c.result) == c
  {
    c.(result := Less)
  }

  /** `NotEqual()`: a copy with Result NOT_EQUAL and nothing else changed. */
  function WithNotEqual(c: Compare): (r: Compare)
    ensures r.result == NotEqual && r.(result := c.result) == c
  {
    c.(result := NotEqual)
  }

  /** `SetModRevision(m)`: a copy whose ModRevision target is m; key, result and the other targets kept. */
  function SetModRevision(c: Compare, m: int64): (r: Compare)
    ensures r.modRevision == Some(m) && r.(modRevision := c.modRevision) == c
  {
    c.(modRevision := Some(m))
  }

  /** `SetCreateRevision(m)`: a copy whose CreateRevision target is m and nothing else changed. */
  function SetCreateRevision(c: Compare, m: int64): (r: Compare)
    ensures r.createRevision == Some(m) && r.(createRevision := c.createRevision) == c
  {
    c.(createRevision := Some(m))
  }

  /** `SetVersion(v)`: a copy whose Version target is v and nothing else changed. */
  function SetVersion(c: Compare, v: int64): (r: Compare)
    ensures r.version == Some(v) && r.(version := c.version) == c
  {
    c.(version := Some(v))
  }

  /** `SetValue(v)`: a copy whose Value target is v and nothing else changed. */
  function SetValue(c: Compare, v: bytes): (r: Compare)
    ensures r.value == Some(v) && r.(value := c.value) == c
  {
    c.(value := Some(v))
  }

  /** The Target enum of a wire compare names the case its union holds. */
  predicate TargetAgrees(w: WireCompare)
  {
    match w.targetUnion
    case None => false
    case Some(u) =>
      match u
      case UnionVersion(_) => w.target == VersionTarget
      case UnionCreateRevision(_) => w.target == CreateTarget
      case UnionModRevision(_) => w.target == ModTarget
      case UnionValue(_) => w.target == ValueTarget
      case UnionLease(_) => w.target == LeaseTarget
  }

  /**
   * `serializeCompare`. The source panics when no target is set, hence the
   * precondition. With several targets set the first of ModRevision,
   * CreateRevision, Version, Value wins.
   */
  function SerializeCompare(c: Compare): (w: WireCompare)
    requires HasTarget(c)
    ensures w.key == c.key && w.result == c.result && w.rangeEnd == []
    ensures TargetAgrees(w)
    ensures c.modRevision.Some? ==> w.targetUnion == Some(UnionModRevision(c.modRevision.value))
    ensures c.modRevision.None? && c.createRevision.Some? ==>
              w.targetUnion == Some(UnionCreateRevision(c.createRevision.value))
    ensures c.modRevision.None? && c.createRevision.None? && c.version.Some? ==>
              w.targetUnion == Some(UnionVersion(c.version.value))
    ensures c.modRevision.None? && c.createRevision.None? && c.version.None? ==>
              w.targetUnion == Some(UnionValue(c.value.value))
  {
    if c.modRevision.Some? then
      WireCompare(c.result, ModTarget, c.key, Some(UnionModRevision(c.modRevision.value)), [])
    else if c.createRevision.Some? then
      WireCompare(c.result, CreateTarget, c.key, Some(UnionCreateRevision(c.createRevision.value)), [])
    else if c.version.Some? then
      WireCompare(c.result, VersionTarget, c.key, Some(UnionVersion(c.version.value)), [])
    else
      WireCompare(c.result, ValueTarget, c.key, Some(UnionValue(c.value.value)), [])
  }

  /**
   * How a receiver reads a wire compare back into the client's shape: the
   * reference inverse of SerializeCompare. None for a union the client never
   * produces (missing, a lease target, a mismatched enum, a range end).
   */
  function CompareOf(w: WireCompare): Option<Compare>
  {
    if !TargetAgrees(w) || w.rangeEnd != [] then None
    else
      match w.targetUnion.value
      case UnionModRevision(m) => Some(Compare(w.key, w.result, Some(m), None, None, None))
      case UnionCreateRevision(m) => Some(Compare(w.key, w.result, None, Some(m), None, None))
      case UnionVersion(v) => Some(Compare(w.key, w.result, None, None, Some(v), None))
      case UnionValue(v) => Some(Compare(w.key, w.result, None, None, None, Some(v)))
      case UnionLease(_) => None
  }

  /**
   * Serialisation loses nothing exactly when one target is set: with two or
   * more, all but the winning one are dropped.
   */
  lemma CompareRoundTripIffSingleTarget(c: Compare)
    requires HasTarget(c)
    ensures CompareOf(SerializeCompare(c)) == Some(c) <==> SingleTarget(c)
  {
  }

  /** Single-target compares serialise injectively. */
  lemma SerializeCompareInjective(c: Compare, d: Compare)
    requires SingleTarget(c) && SingleTarget(d)
    requires SerializeCompare(c) == SerializeCompare(d)
    ensures c == d
  {
    CompareRoundTripIffSingleTarget(c);
    CompareRoundTripIffSingleTarget(d);
  }

  /** Lexicographic order on byte strings, as a store orders values. */
  predicate BytesLess(a: bytes, b: bytes)
  {
    if a == [] then b != []
    else if b == [] then false
    else a[0] < b[0] || (a[0] == b[0] && BytesLess(a[1..], b[1..]))
  }

  /** Compare two ordered quantities under a result. */
  predicate Relate(result: CompareResult, lhs: int, rhs: int)
  {
    match result
    case Equal => lhs == rhs
    case Greater => lhs > rhs
    case Less => lhs < rhs
    case NotEqual => lhs != rhs
  }

  /**
   * How a store evaluates a wire compare against the key's stored entry (None
   * when the key has no entry): the revision and version targets read as 0 for
   * an absent key. The stored lease is not modelled, so a lease target reads 0.
   */
  predicate Holds(w: WireCompare, modRevision: int64, createRevision: int64, version: int64, value: Option<bytes>)
    requires TargetAgrees(w)
  {
    match w.targetUnion.value
    case UnionModRevision(m) => Relate(w.result, modRevision, m)
    case UnionCreateRevision(m) => Relate(w.result, createRevision, m)
    case UnionVersion(v) => Relate(w.result, version, v)
    case UnionLease(l) => Relate(w.result, 0, l)
    case UnionValue(v) =>
      value.Some? &&
      match w.result
      case Equal => value.value == v
      case NotEqual => value.value != v
      case Greater => BytesLess(v, value.value)
      case Less => BytesLess(value.value, v)
  }

  /**
   * The benchmark's single-op guard `Compare{Key: k}.Equal().SetModRevision(0)`
   * serialises to an EQUAL test of ModRevision against 0 on key k, which holds
   * exactly when the key has never been written (mod revisions of stored keys
   * are positive).
   */
  lemma AbsentKeyGuard(k: bytes, storedModRevision: int64, createRevision: int64, version: int64, value: Option<bytes>)
    requires storedModRevision >= 0
    ensures HasTarget(SetModRevision(WithEqual(CompareOn(k)), 0))
    ensures SerializeCompare(SetModRevision(WithEqual(CompareOn(k)), 0))
              == WireCompare(Equal, ModTarget, k, Some(UnionModRevision(0)), [])
    ensures (Holds(SerializeCompare(SetModRevision(WithEqual(CompareOn(k)), 0)),
                   storedModRevision, createRevision, version, value)
             <==> storedModRevision == 0)
  {
  }
}
