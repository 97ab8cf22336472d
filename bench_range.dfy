/**
 * The `range` benchmark's request generator (tools/benchmark/range.go): one
 * single-key range per draw, its key rendered into the reused key buffer.
 * The `val-size` flag is read but never used. The random draws are the
 * parameter `draws`; the channel is the returned sequence, in send order.
 */
module RangeBench {
  import opened Wrappers
  import opened GoTypes
  import opened Wire
  import opened KeyBuffer
  import opened Ranges
  import opened Txns
  import opened Bench

  /** One single-key range per key. */
  function RangeOps(keys: seq<bytes>): (ops: seq<Request>)
    ensures |ops| == |keys|
    ensures forall i :: 0 <= i < |keys| ==> ops[i] == RangeOp(keys[i])
  {
    if keys == [] then [] else RangeOps(keys[..|keys| - 1]) + [RangeOp(keys[|keys| - 1])]
  }

  /** The requests the generator sends for the given draws. */
  function RangesFor(keySize: nat, keySpaceSize: uint64, draws: seq<uint64>): seq<Request>
    requires keySpaceSize > 0 || draws == []
    requires Fits(KeyNumbers(draws, keySpaceSize), keySize)
  {
    RangeOps(KeysFrom(Dashes(keySize), KeyNumbers(draws, keySpaceSize)))
  }

  /**
   * The generator goroutine: `total` draws, each rendered into the one key
   * buffer and sent as a range over that key. Go panics on a zero key space
   * and on a draw whose digits do not fit the key size; both are excluded.
   */
  method GenerateRanges(total: uint64, keySize: uint64, keySpaceSize: uint64, draws: seq<uint64>)
    returns (ops: seq<Request>)
    requires |draws| == total
    requires keySpaceSize > 0 || total == 0
    requires Fits(KeyNumbers(draws, keySpaceSize), keySize)
    ensures ops == RangesFor(keySize, keySpaceSize, draws)
  {
    var key := new byte[keySize](_ => Dash);
    ghost var blank := Dashes(keySize);
    ghost var ns := KeyNumbers(draws, keySpaceSize);
    assert key[..] == blank;
    ops := [];
    for i := 0 to total
      invariant Fits(ns[..i], |blank|)
      invariant key[..] == After(blank, ns[..i])
      invariant ops == RangeOps(KeysFrom(blank, ns[..i]))
    {
      KeysStep(blank, ns, i);
      ghost var keys := KeysFrom(blank, ns[..i]);
      var n := draws[i] % keySpaceSize;
      assert n == ns[i];
      var _ := RenderKey(key, n);
      assert key[..] == Overlay(After(blank, ns[..i]), ns[i]);
      assert KeysFrom(blank, ns[..i + 1]) == keys + [key[..]];
      assert (keys + [key[..]])[..|keys|] == keys;
      ops := ops + [RangeOp(key[..])];
    }
    assert ns[..total] == ns;
  }

  /**
   * What every generated range looks like: a single key (empty range end), no
   * limit, no revision, no sort, and a key of exactly `keySize` bytes whose
   * leading digits parse back to the draw modulo the key space, followed by
   * whatever the previous key left in the buffer (dashes for the first).
   */
  lemma GeneratedRanges(keySize: nat, keySpaceSize: uint64, draws: seq<uint64>)
    requires keySpaceSize > 0 || draws == []
    requires Fits(KeyNumbers(draws, keySpaceSize), keySize)
    ensures |RangesFor(keySize, keySpaceSize, draws)| == |draws|
    ensures forall i :: 0 <= i < |draws| ==>
              var ops := RangesFor(keySize, keySpaceSize, draws);
              && ops[i].RangeReq? && ops[i].range.Some?
              && ops[i].range.value == RangeRequestOn(ops[i].range.value.key)
              && ops[i].range.value.rangeEnd == [] && ops[i].range.value.limit == 0
              && ops[i].range.value.revision == 0 && ops[i].range.value.sortOrder == SortNone
              && RenderedOver(ops[i].range.value.key, draws[i] % keySpaceSize,
                              if i == 0 then Dashes(keySize) else ops[i - 1].range.value.key)
  {
    var blank, ns := Dashes(keySize), KeyNumbers(draws, keySpaceSize);
    var keys := KeysFrom(blank, ns);
    var ops := RangesFor(keySize, keySpaceSize, draws);
    KeysParseBack(blank, ns);
    forall i | 0 <= i < |draws|
      ensures RenderedOver(ops[i].range.value.key, draws[i] % keySpaceSize,
                           if i == 0 then blank else ops[i - 1].range.value.key)
    {
      assert ops[i].range.value.key == keys[i];
      assert ns[i] == draws[i] % keySpaceSize;
      assert RenderedOver(keys[i], ns[i], Previous(blank, keys, i));
      if i > 0 {
        assert ops[i - 1].range.value.key == keys[i - 1];
      }
    }
  }
}
