/**
 * The `txn-put` benchmark's request generator (tools/benchmark/txn_put.go):
 * `total / txn-ops` transactions, each with `txn-ops` puts in its success
 * branch and no failure branch; a transaction of a single put is guarded by
 * "the key's mod revision is 0". All keys share the one reused key buffer.
 * The random draws are the parameter `draws`, one group per transaction.
 */
module TxnPutBench {
  import opened Wrappers
  import opened GoTypes
  import opened Wire
  import opened KeyBuffer
  import opened Compares
  import opened Puts
  import opened Txns
  import opened Bench
  import opened PutBench

  /** The transaction for one group of numbers rendered from buf; the guard takes the last key rendered. */
  function TxnPutOf(buf: seq<byte>, ns: seq<nat>, value: bytes, opsPerTxn: nat): Request
    requires Fits(ns, |buf|)
  {
    TxnReq(Some(TxnRequest(
      if opsPerTxn == 1 then [SingleOpGuard(After(buf, ns))] else [],
      PutOps(KeysFrom(buf, ns), value),
      [])))
  }

  /** The transactions for the groups in turn, the buffer carried from one to the next. */
  function TxnPutsFrom(buf: seq<byte>, groups: seq<seq<nat>>, value: bytes, opsPerTxn: nat): (ops: seq<Request>)
    requires AllFit(groups, |buf|)
    ensures |ops| == |groups|
  {
    if groups == [] then []
    else
      var init := groups[..|groups| - 1];
      TxnPutsFrom(buf, init, value, opsPerTxn) + [TxnPutOf(AfterGroups(buf, init), groups[|groups| - 1], value, opsPerTxn)]
  }

  function TxnPutsFor(keySize: nat, valSize: nat, keySpaceSize: uint64, opsPerTxn: nat, draws: seq<seq<uint64>>): seq<Request>
    requires keySpaceSize > 0 || draws == []
    requires AllFit(KeyNumberGroups(draws, keySpaceSize), keySize)
  {
    TxnPutsFrom(Dashes(keySize), KeyNumberGroups(draws, keySpaceSize), Dashes(valSize), opsPerTxn)
  }

  /** The inner loop: one put per draw of the group, each key rendered into the shared buffer. */
  method FillPuts(key: array<byte>, group: seq<uint64>, keySpaceSize: uint64, value: bytes)
    returns (success: seq<Request>)
    requires keySpaceSize > 0 || group == []
    requires Fits(KeyNumbers(group, keySpaceSize), key.Length)
    modifies key
    ensures key[..] == After(old(key[..]), KeyNumbers(group, keySpaceSize))
    ensures success == PutOps(KeysFrom(old(key[..]), KeyNumbers(group, keySpaceSize)), value)
  {
    ghost var start := key[..];
    ghost var ns := KeyNumbers(group, keySpaceSize);
    success := [];
    for i := 0 to |group|
      invariant Fits(ns[..i], |start|)
      invariant key[..] == After(start, ns[..i])
      invariant success == PutOps(KeysFrom(start, ns[..i]), value)
    {
      KeysStep(start, ns, i);
      ghost var keys := KeysFrom(start, ns[..i]);
      var n := group[i] % keySpaceSize;
      assert n == ns[i];
      var _ := RenderKey(key, n);
      assert key[..] == Overlay(After(start, ns[..i]), ns[i]);
      assert KeysFrom(start, ns[..i + 1]) == keys + [key[..]];
      assert (keys + [key[..]])[..|keys|] == keys;
      success := success + [PutOp(key[..], value)];
    }
    assert ns[..|group|] == ns;
  }

  /** One transaction: render its puts, then guard it on the last key when it holds exactly one. */
  method NextTxnPut(key: array<byte>, group: seq<uint64>, keySpaceSize: uint64, value: bytes, opsPerTxn: uint64)
    returns (op: Request)
    requires keySpaceSize > 0 || group == []
    requires Fits(KeyNumbers(group, keySpaceSize), key.Length)
    modifies key
    ensures key[..] == After(old(key[..]), KeyNumbers(group, keySpaceSize))
    ensures op == TxnPutOf(old(key[..]), KeyNumbers(group, keySpaceSize), value, opsPerTxn)
  {
    var success := FillPuts(key, group, keySpaceSize, value);
    var compare: seq<Compare> := [];
    if opsPerTxn == 1 {
      compare := [SingleOpGuard(key[..])];
    }
    op := TxnReq(Some(TxnRequest(compare, success, [])));
  }

  /**
   * The generator goroutine: the request total is first divided by the ops per
   * transaction, then each transaction renders its puts and, when it has
   * exactly one, guards it on the last key rendered. Go panics on zero ops
   * per transaction, on a zero key space when anything is drawn, and on a
   * draw whose digits do not fit the key size; all are excluded.
   */
  method GenerateTxnPuts(total: uint64, keySize: uint64, valSize: uint64, keySpaceSize: uint64, opsPerTxn: uint64,
                         draws: seq<seq<uint64>>)
    returns (ops: seq<Request>)
    requires opsPerTxn > 0
    requires |draws| == TxnCount(total, opsPerTxn)
    requires forall t :: 0 <= t < |draws| ==> |draws[t]| == opsPerTxn
    requires keySpaceSize > 0 || draws == []
    requires AllFit(KeyNumberGroups(draws, keySpaceSize), keySize)
    ensures ops == TxnPutsFor(keySize, valSize, keySpaceSize, opsPerTxn, draws)
  {
    var txns := DivideTotal(total, opsPerTxn);
    assert txns == |draws|;
    var key := new byte[keySize](_ => Dash);
    var value := Dashes(valSize);
    ghost var blank := Dashes(keySize);
    ghost var groups := KeyNumberGroups(draws, keySpaceSize);
    assert key[..] == blank;
    ops := [];
    for t := 0 to txns
      invariant AllFit(groups[..t], |blank|)
      invariant key[..] == AfterGroups(blank, groups[..t])
      invariant ops == TxnPutsFrom(blank, groups[..t], value, opsPerTxn)
    {
      GroupsStep(blank, groups, t);
      TxnPutsStep(blank, groups, value, opsPerTxn, t);
      assert groups[t] == KeyNumbers(draws[t], keySpaceSize);
      var op := NextTxnPut(key, draws[t], keySpaceSize, value, opsPerTxn);
      ops := ops + [op];
    }
    assert groups[..txns] == groups;
  }

  /** The step the outer loop takes: one more group adds its transaction. */
  lemma TxnPutsStep(buf: seq<byte>, groups: seq<seq<nat>>, value: bytes, opsPerTxn: nat, t: nat)
    requires AllFit(groups, |buf|) && t < |groups|
    ensures AllFit(groups[..t], |buf|) && AllFit(groups[..t + 1], |buf|)
    ensures TxnPutsFrom(buf, groups[..t + 1], value, opsPerTxn)
            == TxnPutsFrom(buf, groups[..t], value, opsPerTxn) + [TxnPutOf(AfterGroups(buf, groups[..t]), groups[t], value, opsPerTxn)]
  {
    assert groups[..t + 1][..t] == groups[..t];
  }

  /** The t-th transaction is built from the buffer the earlier ones left. */
  lemma {:induction false} TxnPutAt(buf: seq<byte>, groups: seq<seq<nat>>, value: bytes, opsPerTxn: nat, t: nat)
    requires AllFit(groups, |buf|) && t < |groups|
    ensures AllFit(groups[..t], |buf|)
    ensures TxnPutsFrom(buf, groups, value, opsPerTxn)[t] == TxnPutOf(AfterGroups(buf, groups[..t]), groups[t], value, opsPerTxn)
    decreases |groups|
  {
    var init := groups[..|groups| - 1];
    PrefixFits(groups, |buf|, |groups| - 1);
    PrefixFits(groups, |buf|, t);
    var earlier := TxnPutsFrom(buf, init, value, opsPerTxn);
    var last := TxnPutOf(AfterGroups(buf, init), groups[|groups| - 1], value, opsPerTxn);
    var here := AfterGroups(buf, groups[..t]);
    assert TxnPutsFrom(buf, groups, value, opsPerTxn) == earlier + [last];
    if t < |init| {
      TxnPutAt(buf, init, value, opsPerTxn, t);
      assert init[..t] == groups[..t] && init[t] == groups[t];
      assert AfterGroups(buf, init[..t]) == here;
      calc {
        TxnPutsFrom(buf, groups, value, opsPerTxn)[t];
        (earlier + [last])[t];
        earlier[t];
        TxnPutOf(AfterGroups(buf, init[..t]), init[t], value, opsPerTxn);
        TxnPutOf(here, groups[t], value, opsPerTxn);
      }
    } else {
      assert init == groups[..t];
      assert AfterGroups(buf, init) == here;
      calc {
        TxnPutsFrom(buf, groups, value, opsPerTxn)[t];
        (earlier + [last])[t];
        last;
        TxnPutOf(here, groups[t], value, opsPerTxn);
      }
    }
  }

  /**
   * The shape of one generated transaction: `opsPerTxn` puts of the dash
   * value in the success branch, an empty failure branch, and a guard exactly
   * when there is one put, comparing that put's own key's mod revision with 0.
   * It is accepted by the request serialiser.
   */
  lemma TxnPutShape(buf: seq<byte>, ns: seq<nat>, value: bytes, opsPerTxn: nat)
    requires Fits(ns, |buf|) && |ns| == opsPerTxn > 0
    ensures var op := TxnPutOf(buf, ns, value, opsPerTxn);
            && op.TxnReq? && op.txn.Some?
            && |op.txn.value.success| == opsPerTxn
            && op.txn.value.failure == []
            && (forall i :: 0 <= i < opsPerTxn ==>
                  op.txn.value.success[i].PutReq? && op.txn.value.success[i].put.Some? &&
                  op.txn.value.success[i].put.value == PutRequestOf(op.txn.value.success[i].put.value.key, value) &&
                  |op.txn.value.success[i].put.value.key| == |buf|)
            && (op.txn.value.compare != [] <==> opsPerTxn == 1)
            && (opsPerTxn == 1 ==> op.txn.value.compare == [SingleOpGuard(op.txn.value.success[0].put.value.key)])
            && TxnSerializable(op.txn.value)
  {
    var keys := KeysFrom(buf, ns);
    assert After(buf, ns) == keys[|keys| - 1];
  }

  /**
   * What the generator sends: `total / opsPerTxn` transactions, each of the
   * shape TxnPutShape gives, whose i-th put renders its own draw modulo the
   * key space over the buffer.
   */
  lemma GeneratedTxnPuts(total: uint64, keySize: nat, valSize: nat, keySpaceSize: uint64, opsPerTxn: uint64,
                         draws: seq<seq<uint64>>)
    requires opsPerTxn > 0
    requires |draws| == TxnCount(total, opsPerTxn)
    requires forall t :: 0 <= t < |draws| ==> |draws[t]| == opsPerTxn
    requires keySpaceSize > 0 || draws == []
    requires AllFit(KeyNumberGroups(draws, keySpaceSize), keySize)
    ensures var ops := TxnPutsFor(keySize, valSize, keySpaceSize, opsPerTxn, draws);
            && |ops| == TxnCount(total, opsPerTxn)
            && forall t :: 0 <= t < |ops| ==>
                 && ops[t].TxnReq? && ops[t].txn.Some?
                 && |ops[t].txn.value.success| == opsPerTxn
                 && ops[t].txn.value.failure == []
                 && (forall i :: 0 <= i < opsPerTxn ==>
                       ops[t].txn.value.success[i].PutReq? && ops[t].txn.value.success[i].put.Some? &&
                       ops[t].txn.value.success[i].put.value == PutRequestOf(ops[t].txn.value.success[i].put.value.key, Dashes(valSize)) &&
                       |ops[t].txn.value.success[i].put.value.key| == keySize)
                 && (ops[t].txn.value.compare != [] <==> opsPerTxn == 1)
                 && (opsPerTxn == 1 ==>
                       ops[t].txn.value.compare == [SingleOpGuard(ops[t].txn.value.success[0].put.value.key)])
                 && TxnSerializable(ops[t].txn.value)
  {
    var blank, groups := Dashes(keySize), KeyNumberGroups(draws, keySpaceSize);
    var ops := TxnPutsFor(keySize, valSize, keySpaceSize, opsPerTxn, draws);
    forall t | 0 <= t < |ops|
      ensures && ops[t].TxnReq? && ops[t].txn.Some?
              && |ops[t].txn.value.success| == opsPerTxn
              && ops[t].txn.value.failure == []
              && (forall i :: 0 <= i < opsPerTxn ==>
                    ops[t].txn.value.success[i].PutReq? && ops[t].txn.value.success[i].put.Some? &&
                    ops[t].txn.value.success[i].put.value == PutRequestOf(ops[t].txn.value.success[i].put.value.key, Dashes(valSize)) &&
                    |ops[t].txn.value.success[i].put.value.key| == keySize)
              && (ops[t].txn.value.compare != [] <==> opsPerTxn == 1)
              && (opsPerTxn == 1 ==>
                    ops[t].txn.value.compare == [SingleOpGuard(ops[t].txn.value.success[0].put.value.key)])
              && TxnSerializable(ops[t].txn.value)
    {
      TxnPutAt(blank, groups, Dashes(valSize), opsPerTxn, t);
      TxnPutShape(AfterGroups(blank, groups[..t]), groups[t], Dashes(valSize), opsPerTxn);
    }
  }
}
