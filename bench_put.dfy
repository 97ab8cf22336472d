/**
 * The `put` benchmark's request generator (tools/benchmark/put.go): one put
 * per draw, its key rendered into the reused key buffer, its value a run of
 * dashes. The random draws are the parameter `draws`; the channel the
 * requests go to is the returned sequence, in send order.
 */
module PutBench {
  import opened Wrappers
  import opened GoTypes
  import opened Wire
  import opened KeyBuffer
  import opened Puts
  import opened Txns
  import opened Bench

  /** One put per key, all with the same value. */
  function PutOps(keys: seq<bytes>, value: bytes): (ops: seq<Request>)
    ensures |ops| == |keys|
    ensures forall i :: 0 <= i < |keys| ==> ops[i] == PutOp(keys[i], value)
  {
    if keys == [] then [] else PutOps(keys[..|keys| - 1], value) + [PutOp(keys[|keys| - 1], value)]
  }

  /** The requests the generator sends for the given draws. */
  function PutsFor(keySize: nat, valSize: nat, keySpaceSize: uint64, draws: seq<uint64>): seq<Request>
    requires keySpaceSize > 0 || draws == []
    requires Fits(KeyNumbers(draws, keySpaceSize), keySize)
  {
    PutOps(KeysFrom(Dashes(keySize), KeyNumbers(draws, keySpaceSize)), Dashes(valSize))
  }

  /**
   * The generator goroutine: `total` draws, each rendered into the one key
   * buffer and sent as a put. Go panics on a zero key space and on a draw
   * whose digits do not fit the key size; both are excluded.
   */
  method GeneratePuts(total: uint64, keySize: uint64, valSize: uint64, keySpaceSize: uint64, draws: seq<uint64>)
    returns (ops: seq<Request>)
    requires |draws| == total
    requires keySpaceSize > 0 || total == 0
    requires Fits(KeyNumbers(draws, keySpaceSize), keySize)
    ensures ops == PutsFor(keySize, valSize, keySpaceSize, draws)
  {
    var key := new byte[keySize](_ => Dash);
    var value := Dashes(valSize);
    ghost var blank := Dashes(keySize);
    ghost var ns := KeyNumbers(draws, keySpaceSize);
    assert key[..] == blank;
    ops := [];
    for i := 0 to total
      invariant Fits(ns[..i], |blank|)
      invariant key[..] == After(blank, ns[..i])
      invariant ops == PutOps(KeysFrom(blank, ns[..i]), value)
    {
      KeysStep(blank, ns, i);
      ghost var keys := KeysFrom(blank, ns[..i]);
      var n := draws[i] % keySpaceSize;
      assert n == ns[i];
      var _ := RenderKey(key, n);
      assert key[..] == Overlay(After(blank, ns[..i]), ns[i]);
      assert KeysFrom(blank, ns[..i + 1]) == keys + [key[..]];
      assert (keys + [key[..]])[..|keys|] == keys;
      ops := ops + [PutOp(key[..], value)];
    }
    assert ns[..total] == ns;
  }

  /**
   * What every generated put looks like: the dash value, no prevKv or
   * ignoreValue, and a key of exactly `keySize` bytes whose leading digits
   * parse back to the draw modulo the key space, followed by whatever the
   * previous key left in the buffer (dashes for the first).
   */
  lemma GeneratedPuts(keySize: nat, valSize: nat, keySpaceSize: uint64, draws: seq<uint64>)
    requires keySpaceSize > 0 || draws == []
    requires Fits(KeyNumbers(draws, keySpaceSize), keySize)
    ensures |PutsFor(keySize, valSize, keySpaceSize, draws)| == |draws|
    ensures forall i :: 0 <= i < |draws| ==>
              var ops := PutsFor(keySize, valSize, keySpaceSize, draws);
              && ops[i].PutReq? && ops[i].put.Some?
              && ops[i].put.value.value == Dashes(valSize)
              && !ops[i].put.value.prevKv && !ops[i].put.value.ignoreValue
              && RenderedOver(ops[i].put.value.key, draws[i] % keySpaceSize,
                              if i == 0 then Dashes(keySize) else ops[i - 1].put.value.key)
  {
    var blank, ns := Dashes(keySize), KeyNumbers(draws, keySpaceSize);
    var keys := KeysFrom(blank, ns);
    var ops := PutsFor(keySize, valSize, keySpaceSize, draws);
    KeysParseBack(blank, ns);
    forall i | 0 <= i < |draws|
      ensures RenderedOver(ops[i].put.value.key, draws[i] % keySpaceSize,
                           if i == 0 then blank else ops[i - 1].put.value.key)
    {
      assert ops[i].put.value.key == keys[i];
      assert ns[i] == draws[i] % keySpaceSize;
      assert RenderedOver(keys[i], ns[i], Previous(blank, keys, i));
      if i > 0 {
        assert ops[i - 1].put.value.key == keys[i - 1];
      }
    }
  }

  /** Every generated put serialises to a wire put with lease 0 and ignoreLease unset. */
  lemma PutsSerialise(keySize: nat, valSize: nat, keySpaceSize: uint64, draws: seq<uint64>)
    requires keySpaceSize > 0 || draws == []
    requires Fits(KeyNumbers(draws, keySpaceSize), keySize)
    ensures forall i :: 0 <= i < |draws| ==>
              var op := PutsFor(keySize, valSize, keySpaceSize, draws)[i];
              && Serializable(op)
              && RequestOpOf(op).RequestPut?
              && RequestOpOf(op).put == Some(WirePutRequest(op.put.value.key, Dashes(valSize), 0, false, false, false))
  {
  }
}
