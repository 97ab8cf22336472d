/**
 * What every benchmark subcommand shares (tools/benchmark/root.go and the
 * worker loop each subcommand repeats): the connection pool, the request
 * builders, and the worker that feeds each request's outcome to the report.
 */
module Bench {
  import opened Wrappers
  import opened GoTypes
  import opened Wire
  import opened Compares
  import opened Ranges
  import opened Puts
  import opened Txns
  import opened Client
  import Report

  // ---------------------------------------------------------------------------
  // newClients

  /** The message `newClients` fails with when there are fewer connections than endpoints. */
  const TooFewConns: string := "conns < len(endpoints)"

  /** The endpoint connection j dials: endpoints are taken round-robin. */
  function EndpointOf(endpoints: seq<string>, j: nat): string
    requires |endpoints| > 0
  {
    endpoints[j % |endpoints|]
  }

  /** The connection client i shares: clients are handed connections round-robin. */
  function ConnIndex(i: nat, totalConns: nat): nat
    requires totalConns > 0
  {
    i % totalConns
  }

  /**
   * The first j dials all succeed. `dial(k, e)` is the outcome of the k-th
   * `etcd.NewClient(e)`: every call opens a connection of its own, so the
   * call's position is part of its argument.
   */
  predicate DialsSucceed<C>(endpoints: seq<string>, dial: (nat, string) -> Result<C, Error>, j: nat)
    requires |endpoints| > 0 || j == 0
  {
    forall k :: 0 <= k < j ==> dial(k, EndpointOf(endpoints, k)).Success?
  }

  /**
   * `newClients`: dial `totalConns` connections round-robin over the
   * endpoints, then hand them out round-robin to `totalClients` clients. The
   * first failed dial aborts with its error. Dialling is the parameter `dial`.
   * With no endpoints the Go code divides by zero unless nothing is dialled
   * and no client is made.
   */
  method NewClients<C(0)>(endpoints: seq<string>, totalConns: nat, totalClients: nat, dial: (nat, string) -> Result<C, Error>)
    returns (r: Result<seq<C>, Error>)
    requires |endpoints| > 0 || (totalConns == 0 && totalClients == 0)
    ensures totalConns < |endpoints| ==> r == Failure(Error(TooFewConns))
    ensures totalConns >= |endpoints| && r.Failure? ==>
              exists j :: 0 <= j < totalConns && DialsSucceed(endpoints, dial, j) && dial(j, EndpointOf(endpoints, j)) == Failure(r.error)
    ensures r.Success? ==>
              && totalConns >= |endpoints|
              && DialsSucceed(endpoints, dial, totalConns)
              && |r.value| == totalClients
              && forall i :: 0 <= i < totalClients ==>
                   r.value[i] == dial(ConnIndex(i, totalConns), EndpointOf(endpoints, ConnIndex(i, totalConns))).value
  {
    if totalConns < |endpoints| {
      return Failure(Error(TooFewConns));
    }
    var conns := new C[totalConns];
    for i := 0 to totalConns
      invariant forall k :: 0 <= k < i ==> dial(k, EndpointOf(endpoints, k)) == Success(conns[k])
    {
      var conn := dial(i, endpoints[i % |endpoints|]);
      if conn.Failure? {
        assert dial(i, EndpointOf(endpoints, i)) == Failure(conn.error);
        return Failure(conn.error);
      }
      conns[i] := conn.value;
    }
    assert DialsSucceed(endpoints, dial, totalConns);
    ghost var dialled := conns[..];
    var clients := new C[totalClients];
    for i := 0 to totalClients
      invariant conns[..] == dialled
      invariant forall k :: 0 <= k < i ==> clients[k] == dialled[ConnIndex(k, totalConns)]
    {
      clients[i] := conns[ConnIndex(i, totalConns)];
    }
    r := Success(clients[..]);
    forall i | 0 <= i < totalClients
      ensures r.value[i] == dial(ConnIndex(i, totalConns), EndpointOf(endpoints, ConnIndex(i, totalConns))).value
    {
      assert r.value[i] == dialled[ConnIndex(i, totalConns)];
    }
  }

  /**
   * The guard against too few connections means every endpoint gets a
   * connection, and with at least as many clients as connections every
   * connection gets a client (client j takes connection j).
   */
  lemma RoundRobinCoversAll(endpoints: seq<string>, totalConns: nat, totalClients: nat)
    requires 0 < |endpoints| <= totalConns
    ensures forall e :: e in endpoints ==> exists j :: 0 <= j < totalConns && EndpointOf(endpoints, j) == e
    ensures totalConns <= totalClients ==> forall j :: 0 <= j < totalConns ==> ConnIndex(j, totalConns) == j
  {
    forall e | e in endpoints
      ensures exists j :: 0 <= j < totalConns && EndpointOf(endpoints, j) == e
    {
      var k :| 0 <= k < |endpoints| && endpoints[k] == e;
      ModSmall(k, |endpoints|);
      assert EndpointOf(endpoints, k) == e;
    }
    if totalConns <= totalClients {
      forall j | 0 <= j < totalConns ensures ConnIndex(j, totalConns) == j {
        ModSmall(j, totalConns);
      }
    }
  }

  lemma ModSmall(k: nat, n: nat)
    requires k < n
    ensures k % n == k
  {
  }

  // ---------------------------------------------------------------------------
  // Request builders shared by the generators

  /** `&etcd.PutRequest{Key: string(key), Value: value}`. */
  function PutOp(key: bytes, value: bytes): Request
  {
    PutReq(Some(PutRequestOf(key, value)))
  }

  /** `&etcd.RangeRequest{Key: string(key)}`. */
  function RangeOp(key: bytes): Request
  {
    RangeReq(Some(RangeRequestOn(key)))
  }

  /** The single-op guard: `Compare{Key: key}.Equal().SetModRevision(0)`. */
  function SingleOpGuard(key: bytes): Compare
  {
    SetModRevision(WithEqual(CompareOn(key)), 0)
  }

  /** The number each draw selects: `rand.Uint64() % keySpaceSize`; Go panics on a zero modulus. */
  function KeyNumbers(draws: seq<uint64>, keySpaceSize: uint64): (ns: seq<nat>)
    requires keySpaceSize > 0 || draws == []
    ensures |ns| == |draws|
    ensures forall i :: 0 <= i < |draws| ==> ns[i] < keySpaceSize
  {
    seq(|draws|, i requires 0 <= i < |draws| => draws[i] % keySpaceSize)
  }

  /** How many whole transactions of opsPerTxn requests fit in total, counted by repeated subtraction. */
  function TxnCount(total: nat, opsPerTxn: nat): nat
    requires opsPerTxn > 0
    decreases total
  {
    if total < opsPerTxn then 0 else 1 + TxnCount(total - opsPerTxn, opsPerTxn)
  }

  /** TxnCount is Go's unsigned division. */
  lemma {:induction false} TxnCountIsQuotient(total: nat, opsPerTxn: nat)
    requires opsPerTxn > 0
    ensures TxnCount(total, opsPerTxn) == total / opsPerTxn
    decreases total
  {
    if total >= opsPerTxn {
      TxnCountIsQuotient(total - opsPerTxn, opsPerTxn);
      var q, r := (total - opsPerTxn) / opsPerTxn, (total - opsPerTxn) % opsPerTxn;
      assert total - opsPerTxn == opsPerTxn * q + r && 0 <= r < opsPerTxn;
      assert opsPerTxn * (q + 1) == opsPerTxn * q + opsPerTxn;
      QuotientUnique(total, opsPerTxn, q + 1, r);
    }
  }

  /** A quotient and remainder in range are the only ones. */
  lemma QuotientUnique(a: int, d: int, q: int, r: int)
    requires d > 0 && 0 <= r < d && a == d * q + r
    ensures a / d == q
  {
    var q', r' := a / d, a % d;
    assert a == d * q' + r' && 0 <= r' < d;
    if q' > q {
      assert d * q' - d * q == d * (q' - q);
      MulAtLeast(d, q' - q);
    } else if q' < q {
      assert d * q - d * q' == d * (q - q');
      MulAtLeast(d, q - q');
    }
  }

  lemma MulAtLeast(d: int, k: int)
    requires d > 0 && k >= 1
    ensures d * k >= d
  {
    assert d * k == d + d * (k - 1);
  }

  /** `total /= opsPerTxn`: how many transactions the txn generators send (Go panics on 0). */
  method DivideTotal(total: uint64, opsPerTxn: uint64) returns (txns: nat)
    requires opsPerTxn > 0
    ensures txns == TxnCount(total, opsPerTxn)
  {
    txns := total / opsPerTxn;
    TxnCountIsQuotient(total, opsPerTxn);
  }

  /** The numbers each transaction's draws select. */
  function KeyNumberGroups(draws: seq<seq<uint64>>, keySpaceSize: uint64): (groups: seq<seq<nat>>)
    requires keySpaceSize > 0 || draws == []
    ensures |groups| == |draws|
    ensures forall t :: 0 <= t < |draws| ==> groups[t] == KeyNumbers(draws[t], keySpaceSize)
  {
    seq(|draws|, t requires 0 <= t < |draws| => KeyNumbers(draws[t], keySpaceSize))
  }

  /**
   * The guard the txn generators add when a transaction holds one operation:
   * it serialises to "mod revision of key equals 0", which a store satisfies
   * exactly when the key has never been written, so the transaction is a
   * write-if-absent.
   */
  lemma SingleOpGuardMeansAbsent(key: bytes, storedModRevision: int64, createRevision: int64, version: int64, value: Option<bytes>)
    requires storedModRevision >= 0
    ensures HasTarget(SingleOpGuard(key))
    ensures SerializeCompare(SingleOpGuard(key)) == WireCompare(Equal, ModTarget, key, Some(UnionModRevision(0)), [])
    ensures (Holds(SerializeCompare(SingleOpGuard(key)), storedModRevision, createRevision, version, value)
             <==> storedModRevision == 0)
  {
    AbsentKeyGuard(key, storedModRevision, createRevision, version, value);
  }

  // ---------------------------------------------------------------------------
  // The worker loop

  /** The report entry for one request: its measured duration and `Do`'s error. */
  function Outcome(client: KVClient, op: Request, duration: int64): (res: Report.Result)
    requires CanDo(client, op)
    ensures res.totalTime == duration
    ensures res.err == TransportError(client, op)
  {
    var r := Dispatched(client, op);
    Report.Result(duration, if r.Failure? then Some(r.error) else None)
  }

  function Outcomes(client: KVClient, ops: seq<Request>, durations: seq<int64>): (rs: seq<Report.Result>)
    requires |durations| == |ops|
    requires forall i :: 0 <= i < |ops| ==> CanDo(client, ops[i])
    ensures |rs| == |ops|
  {
    seq(|ops|, i requires 0 <= i < |ops| => Outcome(client, ops[i], durations[i]))
  }

  /**
   * The workers' loop, run by one worker over the whole stream: each request
   * goes through `Do`, its duration (clock readings are the parameter
   * `durations`) and error go to the report, which processes them once the
   * stream is closed. By ArrivalOrderIrrelevant, any interleaving of several
   * workers gives the same stats.
   */
  method Drain(client: KVClient, ops: seq<Request>, durations: seq<int64>, rep: Report.Report)
    requires |durations| == |ops|
    requires forall i :: 0 <= i < |ops| ==> CanDo(client, ops[i])
    modifies rep
    ensures rep.stats == Report.Processed(old(rep.stats), Outcomes(client, ops, durations))
  {
    var results: seq<Report.Result> := [];
    for i := 0 to |ops|
      invariant results == Outcomes(client, ops[..i], durations[..i])
      invariant unchanged(rep)
    {
      var r := Do(client, ops[i]);
      results := results + [Report.Result(durations[i], if r.Failure? then Some(r.error) else None)];
    }
    assert ops[..|ops|] == ops && durations[..|durations|] == durations;
    rep.ProcessResults(results);
  }

  /** How many requests failed with message m. */
  function FailuresWith(client: KVClient, ops: seq<Request>, m: string): nat
    requires forall i :: 0 <= i < |ops| ==> CanDo(client, ops[i])
  {
    if ops == [] then 0
    else FailuresWith(client, ops[..|ops| - 1], m) + (if TransportError(client, ops[|ops| - 1]) == Some(Error(m)) then 1 else 0)
  }

  lemma {:induction false} ErrorCountIsFailures(client: KVClient, ops: seq<Request>, durations: seq<int64>, m: string)
    requires |durations| == |ops|
    requires forall i :: 0 <= i < |ops| ==> CanDo(client, ops[i])
    ensures Report.ErrorCount(Outcomes(client, ops, durations), m) == FailuresWith(client, ops, m)
  {
    if ops != [] {
      var n := |ops| - 1;
      ErrorCountIsFailures(client, ops[..n], durations[..n], m);
      assert Outcomes(client, ops, durations)[..n] == Outcomes(client, ops[..n], durations[..n]);
    }
  }

  /**
   * A fresh report fed by the worker counts every request exactly once: the
   * successes in Total, each failed request under its error message.
   */
  lemma EveryRequestReported(client: KVClient, ops: seq<Request>, durations: seq<int64>)
    requires |durations| == |ops|
    requires forall i :: 0 <= i < |ops| ==> CanDo(client, ops[i])
    ensures var s := Report.Processed(Report.NewStats, Outcomes(client, ops, durations));
            && Report.MapSum(s.errors) + s.total == |ops|
            && forall m :: Report.Get(s.errors, m) == FailuresWith(client, ops, m)
  {
    var rs := Outcomes(client, ops, durations);
    Report.CountsAddUp(rs);
    forall m ensures Report.Get(Report.Processed(Report.NewStats, rs).errors, m) == FailuresWith(client, ops, m) {
      Report.TallyCounts(map[], rs, m);
      ErrorCountIsFailures(client, ops, durations, m);
    }
  }
}
