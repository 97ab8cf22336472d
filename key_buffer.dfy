/**
 * The benchmark generators' key rendering (tools/benchmark/put.go:74-86 and
 * its copies): one `[]byte` buffer of `key-size` dashes is allocated once and
 * reused. For each draw n its decimal digits are written least significant
 * first from index 0, then that prefix is reversed in place. Bytes past the
 * new digits keep whatever the previous renders left there.
 */
module KeyBuffer {
  import opened GoTypes

  /** The digits the render loop writes, least significant first; none for 0. */
  function DigitsLE(n: nat): seq<byte>
  {
    if n == 0 then [] else [Zero + n % 10] + DigitsLE(n / 10)
  }

  /** The decimal rendering of n without leading zeros; 0 renders as no digits at all. */
  function Decimal(n: nat): seq<byte>
  {
    if n == 0 then [] else Decimal(n / 10) + [Zero + n % 10]
  }

  /** `slices.Reverse` on a value. */
  function Reverse(s: seq<byte>): (r: seq<byte>)
    ensures |r| == |s|
    ensures forall i :: 0 <= i < |s| ==> r[i] == s[|s| - 1 - i]
  {
    if s == [] then [] else Reverse(s[1..]) + [s[0]]
  }

  predicate IsDigit(b: byte)
  {
    Zero <= b < Zero + 10
  }

  predicate AllDigits(s: seq<byte>)
  {
    forall i :: 0 <= i < |s| ==> IsDigit(s[i])
  }

  /** The number a string of decimal digits denotes. */
  function ValueOf(ds: seq<byte>): nat
    requires AllDigits(ds)
  {
    if ds == [] then 0 else 10 * ValueOf(ds[..|ds| - 1]) + (ds[|ds| - 1] - Zero)
  }

  function Pow10(k: nat): (p: nat)
    ensures p > 0
  {
    if k == 0 then 1 else 10 * Pow10(k - 1)
  }

  /** The key after rendering n over `buf`: n's digits, then buf's stale bytes. */
  function Overlay(buf: seq<byte>, n: nat): seq<byte>
    requires |Decimal(n)| <= |buf|
  {
    Decimal(n) + buf[|Decimal(n)|..]
  }

  // ---------------------------------------------------------------------------
  // Decimal rendering

  lemma {:induction false} ReverseAppend(a: seq<byte>, b: seq<byte>)
    ensures Reverse(a + b) == Reverse(b) + Reverse(a)
  {
    var r, l := Reverse(a + b), Reverse(b) + Reverse(a);
    assert |r| == |l|;
    forall i | 0 <= i < |r| ensures r[i] == l[i] {
    }
  }

  /** Reversing the digits the loop writes gives the decimal rendering. */
  lemma {:induction false} ReversedDigits(n: nat)
    ensures Reverse(DigitsLE(n)) == Decimal(n)
    decreases n
  {
    if n > 0 {
      ReversedDigits(n / 10);
      ReverseAppend([Zero + n % 10], DigitsLE(n / 10));
      assert Reverse([Zero + n % 10]) == [Zero + n % 10];
    }
  }

  /** A rendering is digits only, has no leading zero, and is empty exactly for 0. */
  lemma {:induction false} DecimalIsCanonical(n: nat)
    ensures AllDigits(Decimal(n))
    ensures Decimal(n) == [] <==> n == 0
    ensures n > 0 ==> Decimal(n)[0] != Zero
    decreases n
  {
    if n > 0 {
      DecimalIsCanonical(n / 10);
      if n / 10 == 0 {
        assert Decimal(n) == [Zero + n % 10];
      }
    }
  }

  /** Parsing a rendering gives back the number: rendering is injective. */
  lemma {:induction false} DecimalRoundTrip(n: nat)
    ensures AllDigits(Decimal(n)) && ValueOf(Decimal(n)) == n
    decreases n
  {
    DecimalIsCanonical(n);
    if n > 0 {
      DecimalRoundTrip(n / 10);
      var d := Decimal(n);
      assert d[..|d| - 1] == Decimal(n / 10);
    }
  }

  /** n renders in at most k digits exactly when n < 10^k. */
  lemma {:induction false} DigitCount(n: nat, k: nat)
    ensures |Decimal(n)| <= k <==> n < Pow10(k)
    decreases n
  {
    if n > 0 && k > 0 {
      DigitCount(n / 10, k - 1);
    }
  }

  /** With the default key size of 8, a draw fits exactly when it is below 10^8. */
  lemma DefaultKeySizeLimit(n: nat)
    ensures |Decimal(n)| <= 8 <==> n < 100000000
  {
    DigitCount(n, 8);
    assert Pow10(8) == 100000000;
  }

  // ---------------------------------------------------------------------------
  // The buffer, updated in place

  /** `slices.Reverse(key[:j])`: the prefix is reversed, the rest untouched. */
  method ReversePrefix(a: array<byte>, j: nat)
    requires j <= a.Length
    modifies a
    ensures a[..j] == Reverse(old(a[..j]))
    ensures a[j..] == old(a[j..])
  {
    var lo, hi := 0, j;
    while lo + 1 < hi
      invariant 0 <= lo <= hi <= j && lo + hi == j
      invariant forall k :: 0 <= k < lo ==> a[k] == old(a[j - 1 - k]) && a[j - 1 - k] == old(a[k])
      invariant forall k :: lo <= k < hi ==> a[k] == old(a[k])
      invariant forall k :: j <= k < a.Length ==> a[k] == old(a[k])
    {
      a[lo], a[hi - 1] := a[hi - 1], a[lo];
      lo, hi := lo + 1, hi - 1;
    }
    assert forall k :: 0 <= k < j ==> a[k] == old(a[j - 1 - k]);
  }

  /** The digit loop: n's digits, least significant first, from index 0; nothing else changes. */
  method WriteDigits(key: array<byte>, n: nat) returns (j: nat)
    requires |DigitsLE(n)| <= key.Length
    modifies key
    ensures j == |DigitsLE(n)|
    ensures key[..j] == DigitsLE(n)
    ensures key[j..] == old(key[j..])
  {
    j := 0;
    var m := n;
    while m > 0
      invariant j + |DigitsLE(m)| == |DigitsLE(n)| <= key.Length
      invariant key[..j] + DigitsLE(m) == DigitsLE(n)
      invariant key[j..] == old(key[j..])
      decreases m
    {
      var d: byte, rest := Zero + m % 10, m / 10;
      assert rest < m && DigitsLE(m) == [d] + DigitsLE(rest);
      ghost var done, after := key[..j], key[j + 1..];
      key[j] := d;
      assert key[..j + 1] == done + [d];
      assert key[j + 1..] == after;
      j, m := j + 1, rest;
    }
    assert key[..j] == DigitsLE(n);
  }

  /**
   * The render step for one draw n: n's decimal digits land at the front of
   * the buffer, which keeps its length, and every later byte is left as it
   * was. The returned j is the number of digits, and they parse back to n.
   */
  method RenderKey(key: array<byte>, n: nat) returns (j: nat)
    requires |Decimal(n)| <= key.Length
    modifies key
    ensures j == |Decimal(n)|
    ensures key[..] == Overlay(old(key[..]), n)
    ensures AllDigits(key[..j]) && ValueOf(key[..j]) == n
  {
    ReversedDigits(n);
    j := WriteDigits(key, n);
    ghost var written := key[..];
    ReversePrefix(key, j);
    assert key[..j] == Decimal(n);
    assert key[j..] == written[j..] == old(key[..])[j..];
    assert key[..] == key[..j] + key[j..];
    DecimalRoundTrip(n);
  }

  // ---------------------------------------------------------------------------
  // A run of renders

  /** Every number renders within `size` bytes (the Go code indexes past the buffer otherwise). */
  predicate Fits(ns: seq<nat>, size: nat)
  {
    forall i :: 0 <= i < |ns| ==> |Decimal(ns[i])| <= size
  }

  /** The buffer's contents after the given keys were sent: the last key, or the initial buffer. */
  function Latest(buf: seq<byte>, keys: seq<seq<byte>>): seq<byte>
  {
    if keys == [] then buf else keys[|keys| - 1]
  }

  /**
   * The keys sent for the numbers ns, one per number, when the buffer starts
   * as buf. Each key is as long as the buffer.
   */
  function KeysFrom(buf: seq<byte>, ns: seq<nat>): (keys: seq<seq<byte>>)
    requires Fits(ns, |buf|)
    ensures |keys| == |ns|
    ensures forall i :: 0 <= i < |ns| ==> |keys[i]| == |buf|
  {
    if ns == [] then []
    else
      var before := KeysFrom(buf, ns[..|ns| - 1]);
      before + [Overlay(Latest(buf, before), ns[|ns| - 1])]
  }

  /** The buffer after rendering all of ns. */
  function After(buf: seq<byte>, ns: seq<nat>): (r: seq<byte>)
    requires Fits(ns, |buf|)
    ensures |r| == |buf|
  {
    Latest(buf, KeysFrom(buf, ns))
  }

  /** What the buffer held before the i-th key was rendered. */
  function Previous(buf: seq<byte>, keys: seq<seq<byte>>, i: nat): seq<byte>
    requires i <= |keys|
  {
    if i == 0 then buf else keys[i - 1]
  }

  /** The i-th key is its number rendered over the key sent just before it (over buf for the first). */
  lemma {:induction false} KeyIsOverlay(buf: seq<byte>, ns: seq<nat>, i: nat)
    requires Fits(ns, |buf|) && i < |ns|
    ensures KeysFrom(buf, ns)[i] == Overlay(Previous(buf, KeysFrom(buf, ns), i), ns[i])
    decreases |ns|
  {
    var init := ns[..|ns| - 1];
    var keys, before := KeysFrom(buf, ns), KeysFrom(buf, init);
    assert keys == before + [Overlay(Latest(buf, before), ns[|ns| - 1])];
    if i < |init| {
      KeyIsOverlay(buf, init, i);
      assert init[i] == ns[i] && keys[i] == before[i];
      assert Previous(buf, keys, i) == Previous(buf, before, i);
    }
  }

  lemma KeysAreOverlays(buf: seq<byte>, ns: seq<nat>)
    requires Fits(ns, |buf|)
    ensures forall i :: 0 <= i < |ns| ==>
              KeysFrom(buf, ns)[i] == Overlay(Previous(buf, KeysFrom(buf, ns), i), ns[i])
  {
    forall i | 0 <= i < |ns|
      ensures KeysFrom(buf, ns)[i] == Overlay(Previous(buf, KeysFrom(buf, ns), i), ns[i])
    {
      KeyIsOverlay(buf, ns, i);
    }
  }

  /**
   * key is what rendering n over prev leaves: same length, a digit prefix
   * that parses back to n, and prev's bytes after it.
   */
  predicate RenderedOver(key: seq<byte>, n: nat, prev: seq<byte>)
  {
    && |key| == |prev|
    && |Decimal(n)| <= |key|
    && AllDigits(key[..|Decimal(n)|])
    && ValueOf(key[..|Decimal(n)|]) == n
    && key[|Decimal(n)|..] == prev[|Decimal(n)|..]
  }

  lemma OverlayRendersOver(prev: seq<byte>, n: nat)
    requires |Decimal(n)| <= |prev|
    ensures RenderedOver(Overlay(prev, n), n, prev)
  {
    var d, key := Decimal(n), Overlay(prev, n);
    assert key[..|d|] == d;
    assert key[|d|..] == prev[|d|..];
    DecimalRoundTrip(n);
  }

  /** Each key's digit prefix parses back to its own number; past that prefix it repeats the previous key. */
  lemma KeysParseBack(buf: seq<byte>, ns: seq<nat>)
    requires Fits(ns, |buf|)
    ensures forall i :: 0 <= i < |ns| ==> RenderedOver(KeysFrom(buf, ns)[i], ns[i], Previous(buf, KeysFrom(buf, ns), i))
  {
    KeysAreOverlays(buf, ns);
    var keys := KeysFrom(buf, ns);
    forall i | 0 <= i < |ns|
      ensures RenderedOver(keys[i], ns[i], Previous(buf, keys, i))
    {
      OverlayRendersOver(Previous(buf, keys, i), ns[i]);
    }
  }

  /** The step a generator loop takes: one more number adds one key and moves the buffer to it. */
  lemma KeysStep(buf: seq<byte>, ns: seq<nat>, i: nat)
    requires Fits(ns, |buf|) && i < |ns|
    ensures Fits(ns[..i], |buf|) && Fits(ns[..i + 1], |buf|)
    ensures |Decimal(ns[i])| <= |After(buf, ns[..i])|
    ensures KeysFrom(buf, ns[..i + 1]) == KeysFrom(buf, ns[..i]) + [Overlay(After(buf, ns[..i]), ns[i])]
    ensures After(buf, ns[..i + 1]) == Overlay(After(buf, ns[..i]), ns[i])
  {
    assert ns[..i + 1][..i] == ns[..i];
  }

  /** Every group of numbers fits the buffer. */
  predicate AllFit(groups: seq<seq<nat>>, size: nat)
  {
    forall t :: 0 <= t < |groups| ==> Fits(groups[t], size)
  }

  /** The buffer after rendering every group in turn. */
  function AfterGroups(buf: seq<byte>, groups: seq<seq<nat>>): (r: seq<byte>)
    requires AllFit(groups, |buf|)
    ensures |r| == |buf|
  {
    if groups == [] then buf
    else After(AfterGroups(buf, groups[..|groups| - 1]), groups[|groups| - 1])
  }

  /** The step a generator's outer loop takes: one more group moves the buffer past it. */
  lemma GroupsStep(buf: seq<byte>, groups: seq<seq<nat>>, t: nat)
    requires AllFit(groups, |buf|) && t < |groups|
    ensures AllFit(groups[..t], |buf|) && AllFit(groups[..t + 1], |buf|)
    ensures AfterGroups(buf, groups[..t + 1]) == After(AfterGroups(buf, groups[..t]), groups[t])
  {
    PrefixFits(groups, |buf|, t);
    PrefixFits(groups, |buf|, t + 1);
    var g := groups[..t + 1];
    assert g[..|g| - 1] == groups[..t] && g[|g| - 1] == groups[t];
  }

  lemma PrefixFits(groups: seq<seq<nat>>, size: nat, n: nat)
    requires AllFit(groups, size) && n <= |groups|
    ensures AllFit(groups[..n], size)
  {
    forall k | 0 <= k < n ensures Fits(groups[..n][k], size) {
      assert groups[..n][k] == groups[k];
    }
  }

  // ---------------------------------------------------------------------------
  // Stale bytes

  /** Drawing 0 renders no digit at all: the key is the previous one, unchanged. */
  lemma ZeroDrawKeepsKey(buf: seq<byte>)
    ensures Overlay(buf, 0) == buf
  {
    assert Decimal(0) == [];
  }

  /**
   * Stale digits make different draws collide: with the default 8-byte key,
   * drawing 123 and then 12 sends the key "123-----" twice.
   */
  lemma StaleDigitsCollide()
    ensures |Decimal(123)| <= 8 && |Decimal(12)| <= 8
    ensures Overlay(Overlay(Dashes(8), 123), 12) == Overlay(Dashes(8), 123)
    ensures Decimal(12) != Decimal(123)
  {
    assert Decimal(1) == [Zero + 1];
    assert Decimal(12) == [Zero + 1, Zero + 2];
    assert Decimal(123) == [Zero + 1, Zero + 2, Zero + 3];
  }
}
