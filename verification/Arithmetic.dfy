/** The adaptive binary arithmetic decoder of libfbf.c, against the intervals of
    an arithmetic code. */
module ArithmeticCode {
  import opened Bytes

  /** A context counts both bits, four bits each. */
  function Freq0(ctx: byte): int { 2 * (ctx / 16) + 1 }
  function Freq1(ctx: byte): int { 2 * (ctx % 16) + 1 }

  /** The context after one more bit; both counts are halved when one is full. */
  function Bumped(bit: bool, ctx: byte): (next: byte) {
    var f0 := Freq0(ctx) + if bit then 0 else 2;
    var f1 := Freq1(ctx) + if bit then 2 else 0;
    var halve := f0 > 31 || f1 > 31;
    var g0, g1 := (if halve then (f0 + 1) / 2 else f0), (if halve then (f1 + 1) / 2 else f1);
    (g0 - 1) / 2 * 16 + (g1 - 1) / 2
  }

  /** The count of a bit. */
  function FreqOf(bit: bool, ctx: byte): int { if bit then Freq1(ctx) else Freq0(ctx) }

  predicate Odd(f: int) { 1 <= f <= 31 && f % 2 == 1 }

  /** Half of a count and the odd number at or below it. */
  function Halved(f: int): int { (f + 1) / 2 - (if (f + 1) / 2 % 2 == 0 then 1 else 0) }

  /** What a decoded bit does to the counts: its own grows by two and the other
      stays, until its own is 31; then both are halved. Counts are odd numbers
      from 1 to 31; in the byte, the count of 0 is the high half and the count of
      1 the low half. */
  lemma BumpedCounts(bit: bool, ctx: byte)
    ensures var next := Bumped(bit, ctx);
      && FreqOf(bit, next) == (if FreqOf(bit, ctx) < 31 then FreqOf(bit, ctx) + 2 else 17)
      && FreqOf(!bit, next) == (if FreqOf(bit, ctx) < 31 then FreqOf(!bit, ctx) else Halved(FreqOf(!bit, ctx)))
      && Odd(FreqOf(false, next)) && Odd(FreqOf(true, next))
      && (!bit && ctx < 0xf0 ==> next == ctx + 0x10) && (bit && ctx % 16 < 15 ==> next == ctx + 1)
  {
    hide Bumped, Freq0, Freq1, Halved, Odd;
    var h, l := ctx / 16, ctx % 16;
    var h' := if bit then (if l < 15 then h else h / 2) else if h < 15 then h + 1 else 8;
    var l' := if bit then (if l < 15 then l + 1 else 8) else if h < 15 then l else l / 2;
    Nibbles(ctx);
    BumpedNibbles(bit, h, l, ctx);
    Bytes2(h', l', Bumped(bit, ctx));
    HalvedIs(h);
    HalvedIs(l);
    OddIs(h');
    OddIs(l');
  }

  lemma HalvedIs(l: int)
    requires l >= 0
    ensures Halved(2 * l + 1) == 2 * (l / 2) + 1
  {
  }

  lemma OddIs(l: int)
    requires 0 <= l <= 15
    ensures Odd(2 * l + 1)
  {
  }

  lemma Bytes2(h: nat, l: nat, ctx: byte)
    requires h <= 15 && l <= 15 && ctx == 16 * h + l
    ensures Freq0(ctx) == 2 * h + 1 && Freq1(ctx) == 2 * l + 1
  {
  }

  /** The same on the two halves of the byte. */
  lemma BumpedNibbles(bit: bool, h: nat, l: nat, ctx: byte)
    requires h <= 15 && l <= 15 && ctx == 16 * h + l
    ensures Bumped(bit, ctx) ==
      if !bit then (if h < 15 then 16 * (h + 1) + l else 16 * 8 + l / 2)
      else (if l < 15 then 16 * h + l + 1 else 16 * (h / 2) + 8)
  {
    Bytes2(h, l, ctx);
    hide Freq0, Freq1;
  }

  lemma Nibbles(ctx: byte)
    ensures ctx == 16 * (ctx / 16) + ctx % 16 && 0 <= ctx / 16 <= 15
    ensures Freq0(ctx) == 2 * (ctx / 16) + 1 && Freq1(ctx) == 2 * (ctx % 16) + 1
  {
  }

  /** The estimated probability of a bit that was just decoded, its count over the
      sum, does not fall, except where the halving keeps one of the small odd
      counts 1, 5 and 9 of the other bit too large. */
  lemma EstimateKept(bit: bool, ctx: byte)
    ensures var next := Bumped(bit, ctx);
      FreqOf(bit, next) * Sum(ctx) >= FreqOf(bit, ctx) * Sum(next)
      <==> !(FreqOf(bit, ctx) == 31 && FreqOf(!bit, ctx) in {1, 5, 9})
  {
    hide Bumped, Freq0, Freq1, Halved;
    BumpedCounts(bit, ctx);
    Nibbles(ctx);
    var next, f, g := Bumped(bit, ctx), FreqOf(bit, ctx), FreqOf(!bit, ctx);
    var f', g' := FreqOf(bit, next), FreqOf(!bit, next);
    assert Sum(ctx) == f + g && Sum(next) == f' + g';
    Estimate(f, g, f', g', if bit then ctx / 16 else ctx % 16);
  }

  lemma Estimate(f: int, g: int, f': int, g': int, l: int)
    requires 0 <= l <= 15 && g == 2 * l + 1 && 0 < f <= 31
    requires f' == (if f < 31 then f + 2 else 17) && g' == (if f < 31 then g else Halved(g))
    ensures f' * (f + g) >= f * (f' + g') <==> !(f == 31 && g in {1, 5, 9})
  {
    if f < 31 {
      assert (f + 2) * (f + g) == f * (f + 2 + g) + 2 * g;
    } else {
      HalvedCase(l);
    }
  }

  lemma HalvedCase(l: int)
    requires 0 <= l <= 15
    ensures 17 * (31 + (2 * l + 1)) >= 31 * (17 + Halved(2 * l + 1)) <==> !(2 * l + 1 in {1, 5, 9})
  {
    HalvedIs(l);
    hide Halved;
  }

  /** The counts after a row of bits, from a context on. */
  function Adapted(ctx: byte, bits: seq<bool>): byte {
    if bits == [] then ctx else Bumped(bits[|bits| - 1], Adapted(ctx, bits[..|bits| - 1]))
  }

  function Seen(bit: bool, bits: seq<bool>): nat {
    multiset(bits)[bit]
  }

  /** A context that starts at 0 counts the bits it has seen, exactly, as long as
      it has seen neither bit more than fifteen times. */
  lemma {:induction false} AdaptedCounts(bits: seq<bool>)
    requires Seen(false, bits) <= 15 && Seen(true, bits) <= 15
    ensures Freq0(Adapted(0, bits)) == 2 * Seen(false, bits) + 1 && Freq1(Adapted(0, bits)) == 2 * Seen(true, bits) + 1
  {
    if bits != [] {
      hide Bumped;
      var init, bit := bits[..|bits| - 1], bits[|bits| - 1];
      assert bits == init + [bit];
      AdaptedCounts(init);
      BumpedCounts(bit, Adapted(0, init));
    }
  }

  function Pow2(n: nat): (p: nat)
    ensures p > 0
  {
    if n == 0 then 1 else 2 * Pow2(n - 1)
  }

  const RANGE_MIN: int := 1024
  const TOP: int := 0x100_0000

  /** A ctx_shift entry: which bit is the rare one, whether its probability is
      three quarters of a power of two, and the shift. */
  predicate Inverted(e: byte) { e >= 128 }
  predicate ThreeQuarters(e: byte) { e / 64 % 2 == 1 }
  function Shift(e: byte): nat { e % 64 }

  function Rare(ctx: byte): int { if Freq0(ctx) > Freq1(ctx) then Freq1(ctx) else Freq0(ctx) }
  function Sum(ctx: byte): int { Freq0(ctx) + Freq1(ctx) }

  /** Eight times the rare count, k times doubled. */
  function Scaled(ctx: byte, k: nat): int { 8 * Rare(ctx) * Pow2(k) }

  /** The entry rounds the probability of the rare bit, rare / sum, to 6/8 or
      8/8 of a power of two. */
  predicate Rounds(ctx: byte, e: byte) {
    && (Inverted(e) <==> Freq0(ctx) > Freq1(ctx))
    && (if ThreeQuarters(e)
        then 3 <= Shift(e) <= 7 && 5 * Sum(ctx) <= Scaled(ctx, Shift(e) - 2) < 7 * Sum(ctx)
        else 1 <= Shift(e) <= 5 && 7 * Sum(ctx) <= Scaled(ctx, Shift(e)) < 10 * Sum(ctx))
  }

  predicate TableOk(table: seq<byte>) {
    |table| == 256 && forall ctx :: 0 <= ctx < 256 ==> Rounds(ctx, table[ctx])
  }

  /** The decision level. */
  function Level(e: byte, range: int): int
    requires range >= 0
  {
    (if ThreeQuarters(e) then range * 3 else range) / Pow2(Shift(e))
  }

  /** The level cuts a legal range in two parts that are not empty, and after
      one renormalisation both are legal ranges again. */
  lemma LevelBounds(ctx: byte, e: byte, range: int)
    requires Rounds(ctx, e) && RANGE_MIN <= range <= TOP
    ensures 24 <= Level(e, range) && 2 * Level(e, range) <= range && range * 3 < TWO32
  {
    hide Scaled;
    Powers();
  }

  /** The level is the share of the rare bit, range * rare / sum, to within a
      fifth. */
  lemma LevelShare(ctx: byte, e: byte, range: int)
    requires Rounds(ctx, e) && 0 <= range
    ensures 5 * Sum(ctx) * Level(e, range) <= 6 * Rare(ctx) * range
    ensures 4 * Rare(ctx) * range < 5 * Sum(ctx) * (Level(e, range) + 1)
  {
    var p, n := Pow2(Shift(e)), if ThreeQuarters(e) then 3 else 1;
    var v := n * range;
    assert Level(e, range) == v / p;
    ShareBounds(ctx, e);
    hide Rounds, Pow2, Level, Rare, Sum;
    Quotient(Sum(ctx), Rare(ctx), n, p, range, v / p);
  }

  lemma ShareBounds(ctx: byte, e: byte)
    requires Rounds(ctx, e)
    ensures var p, n := Pow2(Shift(e)), if ThreeQuarters(e) then 3 else 1;
      4 * Rare(ctx) * p < 5 * Sum(ctx) * n && 5 * Sum(ctx) * n <= 6 * Rare(ctx) * p && Sum(ctx) > 0 && Rare(ctx) > 0
  {
    hide Freq0, Freq1, Pow2;
    var k := if ThreeQuarters(e) then Shift(e) - 2 else Shift(e);
    Nibbles(ctx);
    PowFour(k);
    ShareOf(Rare(ctx), Sum(ctx), Pow2(k), ThreeQuarters(e));
    assert Scaled(ctx, k) == 8 * Rare(ctx) * Pow2(k);
  }

  lemma PowFour(k: nat)
    ensures Pow2(k + 2) == 4 * Pow2(k)
  {
    assert Pow2(k + 2) == 2 * Pow2(k + 1);
  }

  lemma ShareOf(rare: int, sum: int, p: int, three: bool)
    requires 0 < p && 0 < rare && 0 < sum
    ensures three && 5 * sum <= 8 * rare * p < 7 * sum ==> 4 * rare * (4 * p) < 5 * sum * 3 && 5 * sum * 3 <= 6 * rare * (4 * p)
    ensures !three && 7 * sum <= 8 * rare * p < 10 * sum ==> 4 * rare * p < 5 * sum && 5 * sum <= 6 * rare * p
  {
    var z := rare * p;
    assert 8 * rare * p == 8 * z && 4 * rare * (4 * p) == 16 * z && 6 * rare * (4 * p) == 24 * z && 4 * rare * p == 4 * z && 6 * rare * p == 6 * z;
  }

  lemma Quotient(sum: int, rare: int, n: int, p: int, range: int, q: int)
    requires 0 <= range && 0 < p && 0 < sum && 0 < rare && 0 < n && q == n * range / p
    requires 4 * rare * p < 5 * sum * n && 5 * sum * n <= 6 * rare * p
    ensures 5 * sum * q <= 6 * rare * range && 4 * rare * range < 5 * sum * (q + 1)
  {
    var v := n * range;
    assert p * q <= v < p * (q + 1);
    assert p * (5 * sum * q) <= p * (6 * rare * range) by {
      assert 5 * sum * (p * q) <= 5 * sum * v;
      assert (5 * sum * n) * range <= (6 * rare * p) * range;
    }
    Cancel(p, 5 * sum * q, 6 * rare * range);
    assert p * (4 * rare * range) < p * (5 * sum * (q + 1)) by {
      assert (4 * rare * p) * range <= (5 * sum * n) * range;
      assert 5 * sum * v < 5 * sum * (p * (q + 1));
    }
    Cancel(p, 5 * sum * (q + 1), 4 * rare * range);
  }

  lemma Cancel(p: int, a: int, b: int)
    requires p > 0
    ensures p * a <= p * b ==> a <= b
    ensures p * b < p * a ==> b < a
  {
    if a > b { assert p * (a - b) > 0; }
  }

  lemma Powers()
    ensures Pow2(0) == 1 && Pow2(1) == 2 && Pow2(2) == 4 && Pow2(3) == 8 && Pow2(4) == 16 && Pow2(5) == 32 && Pow2(6) == 64 && Pow2(7) == 128
  {
    assert Pow2(3) == 2 * Pow2(2);
    assert Pow2(5) == 2 * Pow2(4);
    assert Pow2(7) == 2 * Pow2(6);
  }

  // The code

  /** The first n bytes of a stream as one number. */
  function Value(stream: nat -> byte, n: nat): nat {
    if n == 0 then 0 else 256 * Value(stream, n - 1) + stream(n - 1)
  }

  /** An interval of numbers with a fixed number of bytes. */
  datatype Interval = Interval(low: nat, range: nat, bytes: nat)

  predicate Legal(iv: Interval) {
    RANGE_MIN <= iv.range <= TOP
  }

  predicate Contains(iv: Interval, stream: nat -> byte) {
    iv.low <= Value(stream, iv.bytes) < iv.low + iv.range
  }

  /** The part of an interval that stands for a bit: the upper part for the bit
      that is not the rare one. */
  function Part(iv: Interval, e: byte, bit: bool): Interval
    requires Level(e, iv.range) <= iv.range && 0 <= Level(e, iv.range)
  {
    var level := Level(e, iv.range);
    if bit != Inverted(e) then Interval(iv.low + level, iv.range - level, iv.bytes)
    else Interval(iv.low, level, iv.bytes)
  }

  /** One more byte when the range is small. */
  function Renormalised(iv: Interval): Interval {
    if iv.range < RANGE_MIN then Interval(256 * iv.low, 256 * iv.range, iv.bytes + 1) else iv
  }

  function Narrowed(iv: Interval, e: byte, bit: bool): Interval
    requires Level(e, iv.range) <= iv.range && 0 <= Level(e, iv.range)
  {
    Renormalised(Part(iv, e, bit))
  }

  lemma NarrowedLegal(iv: Interval, ctx: byte, e: byte, bit: bool)
    requires Rounds(ctx, e) && Legal(iv)
    ensures 0 < Level(e, iv.range) < iv.range && Legal(Narrowed(iv, e, bit))
    ensures Narrowed(iv, e, bit).bytes <= iv.bytes + 1
  {
    LevelBounds(ctx, e, iv.range);
  }

  lemma RenormalisedContains(iv: Interval, stream: nat -> byte)
    ensures Contains(Renormalised(iv), stream) <==> Contains(iv, stream)
  {
    var v, n := Value(stream, iv.bytes), iv.bytes;
    assert Value(stream, n + 1) == 256 * v + stream(n);
  }

  /** Of a stream in an interval, exactly one bit keeps it inside: the one that
      the comparison with the level finds. */
  lemma NarrowedContains(iv: Interval, ctx: byte, e: byte, bit: bool, stream: nat -> byte)
    requires Rounds(ctx, e) && Legal(iv)
    ensures 0 < Level(e, iv.range) < iv.range
    ensures Contains(Narrowed(iv, e, bit), stream) <==>
      Contains(iv, stream) && bit == ((Value(stream, iv.bytes) - iv.low >= Level(e, iv.range)) != Inverted(e))
  {
    NarrowedLegal(iv, ctx, e, bit);
    RenormalisedContains(Part(iv, e, bit), stream);
  }
}
