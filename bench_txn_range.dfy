/**
 * The `txn-range` benchmark's request generator (tools/benchmark/txn_range.go):
 * `total / txn-ops` transactions, each with `txn-ops` single-key ranges in
 * its success branch, guarded like txn-put when it holds one range. Unlike
 * the other generators it renders the raw 64-bit draw, with no key space to
 * reduce it, so a draw of more than `key-size` digits makes the Go code index
 * past the key buffer. The random draws are the parameter `draws`, one group
 * per transaction.
 */
module TxnRangeBench {
  import opened Wrappers
  import opened GoTypes
  import opened Wire
  import opened KeyBuffer
  import opened Compares
  import opened Ranges
  import opened Txns
  import opened Bench
  import opened RangeBench

  /** The transaction for one group of numbers rendered from buf; the guard takes the last key rendered. */
  function TxnRangeOf(buf: seq<byte>, ns: seq<nat>, opsPerTxn: nat): Request
    requires Fits(ns, |buf|)
  {
    TxnReq(Some(TxnRequest(
      if opsPerTxn == 1 then [SingleOpGuard(After(buf, ns))] else [],
      RangeOps(KeysFrom(buf, ns)),
      [])))
  }

  /** The transactions for the groups in turn, the buffer carried from one to the next. */
  function TxnRangesFrom(buf: seq<byte>, groups: seq<seq<nat>>, opsPerTxn: nat): (ops: seq<Request>)
    requires AllFit(groups, |buf|)
    ensures |ops| == |groups|
  {
    if groups == [] then []
    else
      var init := groups[..|groups| - 1];
      TxnRangesFrom(buf, init, opsPerTxn) + [TxnRangeOf(AfterGroups(buf, init), groups[|groups| - 1], opsPerTxn)]
  }

  /** The draws as the numbers rendered: no reduction. */
  function Numbers(draws: seq<seq<uint64>>): (groups: seq<seq<nat>>)
    ensures |groups| == |draws|
    ensures forall t :: 0 <= t < |draws| ==> |groups[t]| == |draws[t]|
    ensures forall t, i :: 0 <= t < |draws| && 0 <= i < |draws[t]| ==> groups[t][i] == draws[t][i]
  {
    seq(|draws|, t requires 0 <= t < |draws| => seq(|draws[t]|, i requires 0 <= i < |draws[t]| => draws[t][i] as nat))
  }

  function TxnRangesFor(keySize: nat, opsPerTxn: nat, draws: seq<seq<uint64>>): seq<Request>
    requires AllFit(Numbers(draws), keySize)
  {
    TxnRangesFrom(Dashes(keySize), Numbers(draws), opsPerTxn)
  }

  /** The inner loop: one range per draw of the group, each key rendered into the shared buffer. */
  method FillRanges(key: array<byte>, group: seq<nat>)
    returns (success: seq<Request>)
    requires Fits(group, key.Length)
    modifies key
    ensures key[..] == After(old(key[..]), group)
    ensures success == RangeOps(KeysFrom(old(key[..]), group))
  {
    ghost var start := key[..];
    success := [];
    for i := 0 to |group|
      invariant Fits(group[..i], |start|)
      invariant key[..] == After(start, group[..i])
      invariant success == RangeOps(KeysFrom(start, group[..i]))
    {
      KeysStep(start, group, i);
      ghost var keys := KeysFrom(start, group[..i]);
      var _ := RenderKey(key, group[i]);
      assert key[..] == Overlay(After(start, group[..i]), group[i]);
      assert KeysFrom(start, group[..i + 1]) == keys + [key[..]];
      assert (keys + [key[..]])[..|keys|] == keys;
      success := success + [RangeOp(key[..])];
    }
    assert group[..|group|] == group;
  }

  /** One transaction: render its ranges, then guard it on the last key when it holds exactly one. */
  method NextTxnRange(key: array<byte>, group: seq<nat>, opsPerTxn: uint64) returns (op: Request)
    requires Fits(group, key.Length)
    modifies key
    ensures key[..] == After(old(key[..]), group)
    ensures op == TxnRangeOf(old(key[..]), group, opsPerTxn)
  {
    var success := FillRanges(key, group);
    var compare: seq<Compare> := [];
    if opsPerTxn == 1 {
      compare := [SingleOpGuard(key[..])];
    }
    op := TxnReq(Some(TxnRequest(compare, success, [])));
  }

  /** The step the outer loop takes: one more group adds its transaction. */
  lemma TxnRangesStep(buf: seq<byte>, groups: seq<seq<nat>>, opsPerTxn: nat, t: nat)
    requires AllFit(groups, |buf|) && t < |groups|
    ensures AllFit(groups[..t], |buf|) && AllFit(groups[..t + 1], |buf|)
    ensures TxnRangesFrom(buf, groups[..t + 1], opsPerTxn)
            == TxnRangesFrom(buf, groups[..t], opsPerTxn) + [TxnRangeOf(AfterGroups(buf, groups[..t]), groups[t], opsPerTxn)]
  {
    assert groups[..t + 1][..t] == groups[..t];
  }

  /**
   * The generator goroutine: the request total is first divided by the ops per
   * transaction, then each transaction renders its ranges and, when it has
   * exactly one, guards it on the last key rendered. Go panics on zero ops
   * per transaction and on a draw whose digits do not fit the key size; both
   * are excluded.
   */
  method GenerateTxnRanges(total: uint64, keySize: uint64, opsPerTxn: uint64, draws: seq<seq<uint64>>)
    returns (ops: seq<Request>)
    requires opsPerTxn > 0
    requires |draws| == TxnCount(total, opsPerTxn)
    requires forall t :: 0 <= t < |draws| ==> |draws[t]| == opsPerTxn
    requires AllFit(Numbers(draws), keySize)
    ensures ops == TxnRangesFor(keySize, opsPerTxn, draws)
  {
    var txns := DivideTotal(total, opsPerTxn);
    assert txns == |draws|;
    var key := new byte[keySize](_ => Dash);
    ghost var blank := Dashes(keySize);
    ghost var groups := Numbers(draws);
    assert key[..] == blank;
    ops := [];
    for t := 0 to txns
      invariant AllFit(groups[..t], |blank|)
      invariant key[..] == AfterGroups(blank, groups[..t])
      invariant ops == TxnRangesFrom(blank, groups[..t], opsPerTxn)
    {
      GroupsStep(blank, groups, t);
      TxnRangesStep(blank, groups, opsPerTxn, t);
      assert groups[t] == draws[t];
      var op := NextTxnRange(key, draws[t], opsPerTxn);
      ops := ops + [op];
    }
    assert groups[..txns] == groups;
  }

  /** The t-th transaction is built from the buffer the earlier ones left. */
  lemma {:induction false} TxnRangeAt(buf: seq<byte>, groups: seq<seq<nat>>, opsPerTxn: nat, t: nat)
    requires AllFit(groups, |buf|) && t < |groups|
    ensures AllFit(groups[..t], |buf|)
    ensures TxnRangesFrom(buf, groups, opsPerTxn)[t] == TxnRangeOf(AfterGroups(buf, groups[..t]), groups[t], opsPerTxn)
    decreases |groups|
  {
    var init := groups[..|groups| - 1];
    PrefixFits(groups, |buf|, |groups| - 1);
    PrefixFits(groups, |buf|, t);
    var earlier := TxnRangesFrom(buf, init, opsPerTxn);
    var last := TxnRangeOf(AfterGroups(buf, init), groups[|groups| - 1], opsPerTxn);
    var here := AfterGroups(buf, groups[..t]);
    assert TxnRangesFrom(buf, groups, opsPerTxn) == earlier + [last];
    if t < |init| {
      TxnRangeAt(buf, init, opsPerTxn, t);
      assert init[..t] == groups[..t] && init[t] == groups[t];
      assert AfterGroups(buf, init[..t]) == here;
      calc {
        TxnRangesFrom(buf, groups, opsPerTxn)[t];
        (earlier + [last])[t];
        earlier[t];
        TxnRangeOf(AfterGroups(buf, init[..t]), init[t], opsPerTxn);
        TxnRangeOf(here, groups[t], opsPerTxn);
      }
    } else {
      assert init == groups[..t];
      assert AfterGroups(buf, init) == here;
      calc {
        TxnRangesFrom(buf, groups, opsPerTxn)[t];
        (earlier + [last])[t];
        last;
        TxnRangeOf(here, groups[t], opsPerTxn);
      }
    }
  }

  /**
   * The shape of one generated transaction: `opsPerTxn` single-key ranges in
   * the success branch, an empty failure branch, and a guard exactly when
   * there is one range, comparing that range's own key's mod revision with 0.
   * It is accepted by the request serialiser.
   */
  lemma TxnRangeShape(buf: seq<byte>, ns: seq<nat>, opsPerTxn: nat)
    requires Fits(ns, |buf|) && |ns| == opsPerTxn > 0
    ensures var op := TxnRangeOf(buf, ns, opsPerTxn);
            && op.TxnReq? && op.txn.Some?
            && |op.txn.value.success| == opsPerTxn
            && op.txn.value.failure == []
            && (forall i :: 0 <= i < opsPerTxn ==>
                  op.txn.value.success[i].RangeReq? && op.txn.value.success[i].range.Some? &&
                  op.txn.value.success[i].range.value == RangeRequestOn(op.txn.value.success[i].range.value.key) &&
                  |op.txn.value.success[i].range.value.key| == |buf|)
            && (op.txn.value.compare != [] <==> opsPerTxn == 1)
            && (opsPerTxn == 1 ==> op.txn.value.compare == [SingleOpGuard(op.txn.value.success[0].range.value.key)])
            && TxnSerializable(op.txn.value)
  {
    var keys := KeysFrom(buf, ns);
    assert After(buf, ns) == keys[|keys| - 1];
  }

  /** What the generator sends: `total / opsPerTxn` transactions, each of the shape TxnRangeShape gives. */
  lemma GeneratedTxnRanges(total: uint64, keySize: nat, opsPerTxn: uint64, draws: seq<seq<uint64>>)
    requires opsPerTxn > 0
    requires |draws| == TxnCount(total, opsPerTxn)
    requires forall t :: 0 <= t < |draws| ==> |draws[t]| == opsPerTxn
    requires AllFit(Numbers(draws), keySize)
    ensures var ops := TxnRangesFor(keySize, opsPerTxn, draws);
            && |ops| == TxnCount(total, opsPerTxn)
            && forall t :: 0 <= t < |ops| ==>
                 && ops[t].TxnReq? && ops[t].txn.Some?
                 && |ops[t].txn.value.success| == opsPerTxn
                 && ops[t].txn.value.failure == []
                 && (forall i :: 0 <= i < opsPerTxn ==>
                       ops[t].txn.value.success[i].RangeReq? && ops[t].txn.value.success[i].range.Some? &&
                       ops[t].txn.value.success[i].range.value == RangeRequestOn(ops[t].txn.value.success[i].range.value.key) &&
                       |ops[t].txn.value.success[i].range.value.key| == keySize)
                 && (ops[t].txn.value.compare != [] <==> opsPerTxn == 1)
                 && (opsPerTxn == 1 ==>
                       ops[t].txn.value.compare == [SingleOpGuard(ops[t].txn.value.success[0].range.value.key)])
                 && TxnSerializable(ops[t].txn.value)
  {
    var blank, groups := Dashes(keySize), Numbers(draws);
    var ops := TxnRangesFor(keySize, opsPerTxn, draws);
    forall t | 0 <= t < |ops|
      ensures && ops[t].TxnReq? && ops[t].txn.Some?
              && |ops[t].txn.value.success| == opsPerTxn
              && ops[t].txn.value.failure == []
              && (forall i :: 0 <= i < opsPerTxn ==>
                    ops[t].txn.value.success[i].RangeReq? && ops[t].txn.value.success[i].range.Some? &&
                    ops[t].txn.value.success[i].range.value == RangeRequestOn(ops[t].txn.value.success[i].range.value.key) &&
                    |ops[t].txn.value.success[i].range.value.key| == keySize)
              && (ops[t].txn.value.compare != [] <==> opsPerTxn == 1)
              && (opsPerTxn == 1 ==>
                    ops[t].txn.value.compare == [SingleOpGuard(ops[t].txn.value.success[0].range.value.key)])
              && TxnSerializable(ops[t].txn.value)
    {
      TxnRangeAt(blank, groups, opsPerTxn, t);
      TxnRangeShape(AfterGroups(blank, groups[..t]), groups[t], opsPerTxn);
    }
  }

  /**
   * With the default 8-byte key the generator only works while every raw
   * draw is below 10^8: a larger 64-bit draw does not fit the buffer.
   */
  lemma DefaultKeySizeNeedsSmallDraws(draws: seq<seq<uint64>>)
    ensures AllFit(Numbers(draws), 8) <==>
              forall t, i :: 0 <= t < |draws| && 0 <= i < |draws[t]| ==> draws[t][i] < 100000000
  {
    var groups := Numbers(draws);
    forall t, i | 0 <= t < |draws| && 0 <= i < |draws[t]|
      ensures |Decimal(groups[t][i])| <= 8 <==> draws[t][i] < 100000000
    {
      DefaultKeySizeLimit(draws[t][i]);
    }
  }
}
