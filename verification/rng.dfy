/** The test-data generator's pseudo-random source: Marsaglia's xorshift32
    with shifts 13, 17 and 5 over a 32-bit state that is never zero, and the
    draws built on it (bounded integers, a pick from a list, runs of letters
    and of digits). The TypeScript code uses a class with a mutable state;
    here a generator is a value and every draw returns the value it leaves
    behind. */
module Rng {
  import opened Common
  import opened Text

  const TwoTo32: int := 0x1_0000_0000

  /** The state a zero seed is replaced by. */
  const ZeroSeedState: bv32 := 0x12345678

  datatype Rng = Rng(state: bv32)

  /** What a draw yields, and the generator after it. */
  datatype Draw<T> = Draw(value: T, rng: Rng)

  /** The constructor: the seed as an unsigned 32-bit number (`seed >>> 0`,
      that is, modulo 2^32), except that zero becomes `0x12345678`, so the
      state is never zero. */
  function NewRng(seed: int): (g: Rng)
    ensures g.state != 0
    ensures seed % TwoTo32 != 0 ==> g.state == (seed % TwoTo32) as bv32
    ensures seed % TwoTo32 == 0 ==> g.state == ZeroSeedState
  {
    var m := seed % TwoTo32;
    if m == 0 then Rng(ZeroSeedState) else Rng(m as bv32)
  }

  /** `nextUint32`: one xorshift32 step, whose result is both the new state
      and the returned number, in `[0, 2^32)`. JavaScript's `<<` and `^` act
      on the 32-bit two's-complement pattern and `>>>` shifts it logically,
      so each operator is the corresponding one on `bv32`. Zero is the only
      state that steps to zero: a generator that starts non-zero stays
      non-zero, which is why the constructor avoids zero. */
  function NextUint32(g: Rng): (d: Draw<bv32>)
    ensures d.rng.state == d.value
    ensures 0 <= d.value as int < TwoTo32
    ensures d.value == 0 <==> g.state == 0
  {
    var x := g.state;
    var a := x ^ (x << 13);
    var b := a ^ (a >> 17);
    var c := b ^ (b << 5);
    Draw(c, Rng(c))
  }

  /** A known answer: from state 1 the three shifts give
      `1 ^ (1 << 13) = 8193`, then `8193 ^ (8193 >>> 17) = 8193`, then
      `8193 ^ (8193 << 5) = 270369`. */
  lemma NextUint32FromOne()
    ensures NextUint32(Rng(1)).value == 270369
    ensures NextUint32(NewRng(1)).value == 270369
  {
  }

  /** The generator after `n` steps. */
  function Advance(g: Rng, n: nat): Rng
    decreases n
  {
    if n == 0 then g else Advance(NextUint32(g).rng, n - 1)
  }

  /** The first `n` numbers `nextUint32` returns. */
  function Stream(g: Rng, n: nat): (s: seq<bv32>)
    ensures |s| == n
    decreases n
  {
    if n == 0 then [] else [NextUint32(g).value] + Stream(NextUint32(g).rng, n - 1)
  }

  /** The stream of a generator whose state is not zero never holds zero. */
  lemma {:induction false} StreamNonZero(g: Rng, n: nat)
    requires g.state != 0
    ensures forall i :: 0 <= i < n ==> Stream(g, n)[i] != 0
    ensures Advance(g, n).state != 0
    decreases n
  {
    if n > 0 {
      var h := NextUint32(g).rng;
      StreamNonZero(h, n - 1);
      assert forall i :: 1 <= i < n ==> Stream(g, n)[i] == Stream(h, n - 1)[i - 1];
    }
  }

  /** Seeds that agree modulo 2^32 start the same generator, so their
      streams agree however far they are followed. */
  lemma SameSeedSameStream(a: int, b: int, n: nat)
    requires a % TwoTo32 == b % TwoTo32
    ensures Stream(NewRng(a), n) == Stream(NewRng(b), n)
  {
  }

  /** `int(min, max)`: one step, then `min + (r % span)` with
      `span = max - min + 1`. The result is `NaN` when the span is zero,
      `None` here; the step is taken either way. When `min <= max` the
      result lies in `[min, max]`. */
  function Int(g: Rng, min: int, max: int): (d: Draw<Option<int>>)
    ensures d.rng == NextUint32(g).rng
    ensures d.value.None? <==> max - min + 1 == 0
    ensures min <= max ==> d.value.Some? && min <= d.value.value <= max
    ensures d.value.Some? ==> (d.value.value - min) % (max - min + 1) == NextUint32(g).value as int % (max - min + 1)
  {
    var r := NextUint32(g);
    var span := max - min + 1;
    // For a non-negative dividend JavaScript's truncating `%` and Dafny's
    // Euclidean `%` agree, whatever the sign of the divisor.
    if span == 0 then Draw(None, r.rng)
    else
      var n := r.value as int;
      var k := n % span;
      RemainderFacts(n, span);
      assert (min + k) - min == k;
      Draw(Some(min + k), r.rng)
  }

  /** A remainder lies below the divisor's magnitude and is its own remainder. */
  lemma RemainderFacts(n: int, span: int)
    requires span != 0
    ensures 0 <= n % span < (if span < 0 then -span else span)
    ensures (n % span) % span == n % span
  {
  }

  /** `pick(arr)`: the element at `int(0, arr.length - 1)`; on an empty
      list that index is `NaN` and the element `undefined`, `None` here. */
  function Pick<T>(g: Rng, arr: seq<T>): (d: Draw<Option<T>>)
    ensures d.rng == NextUint32(g).rng
    ensures d.value.Some? <==> |arr| > 0
    ensures d.value.Some? ==> d.value.value in arr
  {
    var i := Int(g, 0, |arr| - 1);
    if |arr| == 0 then Draw(None, i.rng)
    else Draw(Some(arr[i.value.value]), i.rng)
  }

  const Letters: string := "ABCDEFGHIJKLMNOPQRSTUVWXYZ"

  predicate IsUpperLetter(c: char) {
    'A' <= c <= 'Z'
  }

  /** The number of iterations of `for (let i = 0; i < n; i++)`. */
  function Count(n: int): nat {
    if n < 0 then 0 else n
  }

  /** `alpha(n)`: `n` letters, each `Letters[int(0, 25)]`; the generator
      advances exactly once per letter. */
  function Alpha(g: Rng, n: int): (d: Draw<string>)
    ensures |d.value| == Count(n)
    ensures forall i :: 0 <= i < |d.value| ==> IsUpperLetter(d.value[i])
    ensures d.rng == Advance(g, Count(n))
    decreases n
  {
    if n <= 0 then Draw("", g)
    else
      var c := Int(g, 0, |Letters| - 1);
      var rest := Alpha(c.rng, n - 1);
      Draw([Letters[c.value.value]] + rest.value, rest.rng)
  }

  /** `digits(n)`: `n` decimal digits, each `String(int(0, 9))`; the
      generator advances exactly once per digit. */
  function Digits(g: Rng, n: int): (d: Draw<string>)
    ensures |d.value| == Count(n)
    ensures AllDigits(d.value)
    ensures d.rng == Advance(g, Count(n))
    decreases n
  {
    if n <= 0 then Draw("", g)
    else
      var c := Int(g, 0, 9);
      var rest := Digits(c.rng, n - 1);
      Draw([DigitChar(c.value.value)] + rest.value, rest.rng)
  }

  /** Each letter of `alpha(n)` is the matching number of the stream modulo 26. */
  lemma {:induction false} AlphaFollowsStream(g: Rng, n: nat)
    ensures forall i :: 0 <= i < n ==> Alpha(g, n).value[i] == Letters[Stream(g, n)[i] as int % 26]
    decreases n
  {
    if n > 0 {
      var r := NextUint32(g);
      AlphaFollowsStream(r.rng, n - 1);
      var a, t := Alpha(g, n).value, Alpha(r.rng, n - 1).value;
      var s, s' := Stream(g, n), Stream(r.rng, n - 1);
      assert a == [Letters[r.value as int % 26]] + t;
      assert s == [r.value] + s';
      forall i | 0 <= i < n
        ensures a[i] == Letters[s[i] as int % 26]
      {
        if i > 0 {
          assert a[i] == t[i - 1] && s[i] == s'[i - 1];
        } else {
          assert a[0] == Letters[r.value as int % 26] && s[0] == r.value;
        }
      }
    }
  }

  /** Each digit of `digits(n)` is the matching number of the stream modulo 10. */
  lemma {:induction false} DigitsFollowStream(g: Rng, n: nat)
    ensures forall i :: 0 <= i < n ==> Digits(g, n).value[i] == DigitChar(Stream(g, n)[i] as int % 10)
    decreases n
  {
    if n > 0 {
      var r := NextUint32(g);
      DigitsFollowStream(r.rng, n - 1);
      var a, t := Digits(g, n).value, Digits(r.rng, n - 1).value;
      var s, s' := Stream(g, n), Stream(r.rng, n - 1);
      assert a == [DigitChar(r.value as int % 10)] + t;
      assert s == [r.value] + s';
      forall i | 0 <= i < n
        ensures a[i] == DigitChar(s[i] as int % 10)
      {
        if i > 0 {
          assert a[i] == t[i - 1] && s[i] == s'[i - 1];
        }
      }
    }
  }
}
