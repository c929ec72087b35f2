/** Whole runs of the arithmetic decoder of libfbf.c with adaptive contexts: the
    bits decoded are the bits whose interval holds the stream, and every bit
    sequence has streams that decode to it. */
module ArithmeticRuns {
  import opened Bytes
  import opened ArithmeticCode
  import opened ArithmeticDecoder

  /** What the caller of the decoder keeps: from its state, the counts of the
      context of the next bit, and the state after that bit. */
  datatype Source<!S> = Source(ctx: S -> byte, next: (S, bool) -> S)

  datatype Coder<S> = Coder(state: S, iv: Interval)

  /** The state and the interval that a bit sequence leads to. */
  ghost function Coded<S>(table: seq<byte>, src: Source<S>, at: Coder<S>, bits: seq<bool>): (c: Coder<S>)
    requires TableOk(table) && Legal(at.iv)
    ensures Legal(c.iv)
  {
    if bits == [] then at
    else
      var prev, bit := Coded(table, src, at, bits[..|bits| - 1]), bits[|bits| - 1];
      var ctx := src.ctx(prev.state);
      NarrowedLegal(prev.iv, ctx, table[ctx], bit);
      Coder(src.next(prev.state, bit), Narrowed(prev.iv, table[ctx], bit))
  }

  /** One bit more. */
  lemma CodedMore<S>(table: seq<byte>, src: Source<S>, at: Coder<S>, bits: seq<bool>, bit: bool)
    requires TableOk(table) && Legal(at.iv)
    ensures var prev := Coded(table, src, at, bits);
      var e := table[src.ctx(prev.state)];
      && 0 < Level(e, prev.iv.range) < prev.iv.range
      && Coded(table, src, at, bits + [bit]) == Coder(src.next(prev.state, bit), Narrowed(prev.iv, e, bit))
  {
    hide Level, Narrowed, Rounds;
    assert (bits + [bit])[..|bits|] == bits;
    var prev := Coded(table, src, at, bits);
    NarrowedLegal(prev.iv, src.ctx(prev.state), table[src.ctx(prev.state)], bit);
  }

  /** The stream stays inside for one of the two bits only. */
  lemma CodedStep<S>(table: seq<byte>, src: Source<S>, at: Coder<S>, bits: seq<bool>, stream: nat -> byte)
    requires TableOk(table) && Legal(at.iv) && bits != []
    requires Contains(Coded(table, src, at, bits).iv, stream)
    ensures var prev := Coded(table, src, at, bits[..|bits| - 1]);
      var e := table[src.ctx(prev.state)];
      Contains(prev.iv, stream) && bits[|bits| - 1] == ((Value(stream, prev.iv.bytes) - prev.iv.low >= Level(e, prev.iv.range)) != Inverted(e))
  {
    hide Contains, Narrowed, Level, Rounds, Coded, Value;
    var init, bit := bits[..|bits| - 1], bits[|bits| - 1];
    LastBit(bits);
    CodedMore(table, src, at, init, bit);
    var prev := Coded(table, src, at, init);
    var ctx := src.ctx(prev.state);
    NarrowedContains(prev.iv, ctx, table[ctx], bit, stream);
  }

  lemma LastBit(a: seq<bool>)
    requires a != []
    ensures a == a[..|a| - 1] + [a[|a| - 1]]
  {
  }

  /** A stream holds one bit sequence of each length. */
  lemma {:induction false} CodedUnique<S>(table: seq<byte>, src: Source<S>, at: Coder<S>, a: seq<bool>, b: seq<bool>, stream: nat -> byte)
    requires TableOk(table) && Legal(at.iv) && |a| == |b|
    requires Contains(Coded(table, src, at, a).iv, stream) && Contains(Coded(table, src, at, b).iv, stream)
    ensures a == b
  {
    if a != [] {
      hide Contains, Coded, Level, TableOk, Value, Inverted;
      CodedStep(table, src, at, a, stream);
      CodedStep(table, src, at, b, stream);
      CodedUnique(table, src, at, a[..|a| - 1], b[..|b| - 1], stream);
      LastBit(a);
      LastBit(b);
    }
  }

  function Pow256(n: nat): (p: nat)
    ensures p > 0
  {
    if n == 0 then 1 else 256 * Pow256(n - 1)
  }

  /** The interval lies among the numbers of its bytes. */
  predicate FitsBytes(iv: Interval) {
    iv.low + iv.range <= Pow256(iv.bytes)
  }

  /** The interval that a decoder starts with. */
  const WHOLE: Interval := Interval(0, TOP, 3)

  lemma WholeFits()
    ensures Legal(WHOLE) && FitsBytes(WHOLE)
  {
    assert Pow256(3) == 256 * Pow256(2) && Pow256(2) == 256 * Pow256(1);
  }

  lemma {:induction false} CodedFits<S>(table: seq<byte>, src: Source<S>, at: Coder<S>, bits: seq<bool>)
    requires TableOk(table) && Legal(at.iv) && FitsBytes(at.iv)
    ensures FitsBytes(Coded(table, src, at, bits).iv)
  {
    if bits != [] {
      hide FitsBytes;
      var init, bit := bits[..|bits| - 1], bits[|bits| - 1];
      CodedFits(table, src, at, init);
      var prev := Coded(table, src, at, init);
      var ctx := src.ctx(prev.state);
      FitsStep(prev.iv, ctx, table[ctx], bit);
    }
  }

  lemma FitsStep(iv: Interval, ctx: byte, e: byte, bit: bool)
    requires Rounds(ctx, e) && Legal(iv) && FitsBytes(iv)
    ensures 0 < Level(e, iv.range) < iv.range
    ensures FitsBytes(Narrowed(iv, e, bit))
  {
    hide Rounds, Level;
    NarrowedLegal(iv, ctx, e, bit);
    assert Pow256(iv.bytes + 1) == 256 * Pow256(iv.bytes);
  }

  /** A number in n bytes, most significant first. */
  function Digits(v: nat, n: nat): (s: seq<byte>)
    ensures |s| == n
  {
    if n == 0 then [] else Digits(v / 256, n - 1) + [v % 256]
  }

  lemma {:induction false} DigitsValue(v: nat, n: nat, stream: nat -> byte)
    requires v < Pow256(n) && forall i :: 0 <= i < n ==> stream(i) == Digits(v, n)[i]
    ensures Value(stream, n) == v
  {
    if n > 0 {
      forall i | 0 <= i < n - 1 ensures stream(i) == Digits(v / 256, n - 1)[i] { assert Digits(v, n)[i] == Digits(v / 256, n - 1)[i]; }
      DigitsValue(v / 256, n - 1, stream);
      assert Digits(v, n)[n - 1] == v % 256;
    }
  }

  /** An encoder: the low end of the interval. */
  ghost function Encoding<S>(table: seq<byte>, src: Source<S>, state: S, bits: seq<bool>): seq<byte>
    requires TableOk(table)
  {
    var iv := Coded(table, src, Coder(state, WHOLE), bits).iv;
    Digits(iv.low, iv.bytes)
  }

  /** A stream begins with the bytes given. */
  ghost predicate Begins(stream: nat -> byte, s: seq<byte>) {
    forall i :: 0 <= i < |s| ==> stream(i) == s[i]
  }

  lemma EncodingContained<S>(table: seq<byte>, src: Source<S>, state: S, bits: seq<bool>, stream: nat -> byte)
    requires TableOk(table) && Begins(stream, Encoding(table, src, state, bits))
    ensures Contains(Coded(table, src, Coder(state, WHOLE), bits).iv, stream)
  {
    hide Coded;
    WholeFits();
    CodedFits(table, src, Coder(state, WHOLE), bits);
    var iv := Coded(table, src, Coder(state, WHOLE), bits).iv;
    DigitsValue(iv.low, iv.bytes, stream);
  }

  // One array of contexts

  /** The caller's choice of the next context, from the bits so far. */
  type Chooser = seq<bool> -> nat

  ghost predicate Chooses(pick: Chooser, n: nat) {
    forall bits :: pick(bits) < n
  }

  datatype Chosen = Chosen(bits: seq<bool>, ctxs: seq<byte>)

  function Picked(pick: Chooser): Source<Chosen> {
    Source((c: Chosen) => if pick(c.bits) < |c.ctxs| then c.ctxs[pick(c.bits)] else 0,
           (c: Chosen, b: bool) => if pick(c.bits) < |c.ctxs|
                                   then Chosen(c.bits + [b], c.ctxs[pick(c.bits) := Bumped(b, c.ctxs[pick(c.bits)])]) else c)
  }

  /** The bits of a run for which the context i was chosen. */
  function ChosenBits(pick: Chooser, bits: seq<bool>, i: nat): seq<bool> {
    if bits == [] then []
    else
      var init := bits[..|bits| - 1];
      ChosenBits(pick, init, i) + if pick(init) == i then [bits[|bits| - 1]] else []
  }

  /** Every context has counted its own bits, in their order, and no others. */
  lemma {:induction false} CountsOwnBits(table: seq<byte>, pick: Chooser, ctxs: seq<byte>, iv: Interval, bits: seq<bool>, i: nat)
    requires TableOk(table) && Legal(iv) && Chooses(pick, |ctxs|) && i < |ctxs|
    ensures var c := Coded(table, Picked(pick), Coder(Chosen([], ctxs), iv), bits).state;
      c.bits == bits && |c.ctxs| == |ctxs| && c.ctxs[i] == Adapted(ctxs[i], ChosenBits(pick, bits, i))
    decreases |bits|
  {
    hide Bumped, Narrowed, Level, TableOk, Rounds, Coded, Legal;
    var at := Coder(Chosen([], ctxs), iv);
    if bits == [] {
      CodedNone(table, Picked(pick), at);
    } else {
      var init, bit := bits[..|bits| - 1], bits[|bits| - 1];
      LastBit(bits);
      CountsOwnBits(table, pick, ctxs, iv, init, i);
      CodedMore(table, Picked(pick), at, init, bit);
      var own := ChosenBits(pick, init, i);
      assert (own + [bit])[..|own|] == own;
      assert own + [] == own;
    }
  }

  /** Decode n bits. */
  method Decode(t: ContextTables, d: Decoder, pick: Chooser, ctx: array<byte>, n: nat) returns (bits: seq<bool>)
    requires t.Valid() && d.Valid() && ctx != t.shift && Chooses(pick, ctx.Length)
    modifies d, ctx
    ensures t.Valid() && d.Valid() && |bits| == n
    ensures var at := Coder(Chosen([], old(ctx[..])), old(d.Where()));
      && Legal(at.iv) && Coder(Chosen(bits, ctx[..]), d.Where()) == Coded(t.shift[..], Picked(pick), at, bits)
      && forall other :: |other| == n ==> (Contains(Coded(t.shift[..], Picked(pick), at, other).iv, d.stream) <==> other == bits)
    ensures forall i :: 0 <= i < ctx.Length ==> ctx[i] == Adapted(old(ctx[i]), ChosenBits(pick, bits, i))
  {
    hide Bumped, Narrowed, Level, TableOk, Rounds, Coded;
    bits := [];
    ghost var table, src, at := t.shift[..], Picked(pick), Coder(Chosen([], ctx[..]), d.Where());
    CodedNone(table, src, at);
    for k := 0 to n
      invariant t.Valid() && d.Valid() && |bits| == k && t.shift[..] == table
      invariant Coder(Chosen(bits, ctx[..]), d.Where()) == Coded(table, src, at, bits)
    {
      var i := pick(bits);
      ghost var ctxval := ctx[i];
      assert table[ctxval] == t.shift[ctxval];
      assert ctx[..][i] == ctxval;
      var b := d.DecodeCtx(t, ctx, i);
      CodedMore(table, src, at, bits, b);
      bits := bits + [b];
    }
    OnlyThese(table, src, at, bits, d.stream);
    ghost var ctxs, now := at.state.ctxs, ctx[..];
    forall i | 0 <= i < ctx.Length ensures ctx[i] == Adapted(old(ctx[i]), ChosenBits(pick, bits, i)) {
      CountsOwnBits(table, pick, ctxs, at.iv, bits, i);
      assert now[i] == ctx[i] && ctxs[i] == old(ctx[i]);
    }
  }

  lemma CodedNone<S>(table: seq<byte>, src: Source<S>, at: Coder<S>)
    requires TableOk(table) && Legal(at.iv)
    ensures Coded(table, src, at, []) == at
  {
  }

  /** A bit sequence whose interval holds the stream is the only one of its length. */
  lemma OnlyThese<S>(table: seq<byte>, src: Source<S>, at: Coder<S>, bits: seq<bool>, stream: nat -> byte)
    requires TableOk(table) && Legal(at.iv) && Contains(Coded(table, src, at, bits).iv, stream)
    ensures forall other :: |other| == |bits| ==> (Contains(Coded(table, src, at, other).iv, stream) <==> other == bits)
  {
    hide Contains, Coded, TableOk;
    forall other | |other| == |bits| && Contains(Coded(table, src, at, other).iv, stream) ensures other == bits {
      CodedUnique(table, src, at, other, bits, stream);
    }
  }

  /** Whatever follows the encoding of a bit sequence, the decoder gives the bit
      sequence back. */
  method RoundTrip(t: ContextTables, pick: Chooser, ctx: array<byte>, ghost bits: seq<bool>, stream: nat -> byte, n: nat) returns (decoded: seq<bool>)
    requires t.Valid() && ctx != t.shift && Chooses(pick, ctx.Length) && n == |bits|
    requires Begins(stream, Encoding(t.shift[..], Picked(pick), Chosen([], ctx[..]), bits))
    modifies ctx
    ensures decoded == bits
  {
    hide Begins, Encoding, Coded, TableOk, Picked;
    EncodingContained(t.shift[..], Picked(pick), Chosen([], ctx[..]), bits, stream);
    var d := new Decoder(stream);
    decoded := Decode(t, d, pick, ctx, n);
  }
}
