/** The decoder itself (libfbf.c): its context tables, one decoded bit, and
    whole runs with adaptive contexts. */
module ArithmeticDecoder {
  import opened Bytes
  import opened ArithmeticCode

  /** The static tables ctx_incr and ctx_shift. */
  class ContextTables {
    const incr: array2<byte>
    const shift: array<byte>

    ghost predicate Valid()
      reads incr, shift
    {
      && incr.Length0 == 2 && incr.Length1 == 256 && shift.Length == 256
      && (forall ctx :: 0 <= ctx < 256 ==> incr[0, ctx] == Bumped(false, ctx) && incr[1, ctx] == Bumped(true, ctx))
      && TableOk(shift[..])
    }

    /** init_context_tables. */
    constructor ()
      ensures Valid() && fresh(incr) && fresh(shift)
    {
      incr := new byte[2, 256];
      shift := new byte[256];
      new;
      FillIncr();
      FillShift();
    }

    method FillIncr()
      requires incr.Length0 == 2 && incr.Length1 == 256
      modifies incr
      ensures forall ctx :: 0 <= ctx < 256 ==> incr[0, ctx] == Bumped(false, ctx) && incr[1, ctx] == Bumped(true, ctx)
    {
      for bit := 0 to 2
        invariant bit > 0 ==> forall c :: 0 <= c < 256 ==> incr[0, c] == Bumped(false, c)
        invariant bit > 1 ==> forall c :: 0 <= c < 256 ==> incr[1, c] == Bumped(true, c)
      {
        for ctx := 0 to 256
          invariant bit > 0 ==> forall c :: 0 <= c < 256 ==> incr[0, c] == Bumped(false, c)
          invariant forall c :: 0 <= c < ctx ==> incr[bit, c] == Bumped(bit == 1, c)
        {
          hide Bumped;
          incr[bit, ctx] := IncrEntry(bit, ctx);
        }
      }
    }

    method FillShift()
      requires shift.Length == 256
      modifies shift
      ensures TableOk(shift[..])
    {
      for ctx := 0 to 256
        invariant forall c :: 0 <= c < ctx ==> Rounds(c, shift[c])
      {
        hide Rounds;
        shift[ctx] := ShiftEntry(ctx);
      }
    }
  }

  /** One entry of ctx_incr. */
  method IncrEntry(bit: nat, ctx: byte) returns (next: byte)
    ensures next == Bumped(bit != 0, ctx)
  {
    var freq0 := 2 * (ctx / 16) + 1;
    var freq1 := 2 * (ctx % 16) + 1;
    if bit == 0 { freq0 := freq0 + 2; } else { freq1 := freq1 + 2; }
    if freq0 > 31 || freq1 > 31 {
      freq0 := (freq0 + 1) / 2;
      freq1 := (freq1 + 1) / 2;
    }
    next := (freq0 - 1) / 2 * 16 + (freq1 - 1) / 2;
  }

  /** One entry of ctx_shift. */
  method ShiftEntry(ctx: byte) returns (e: byte)
    ensures Rounds(ctx, e)
  {
    hide Scaled, Pow2;
    var freq0, freq1, val := 2 * (ctx / 16) + 1, 2 * (ctx % 16) + 1, 0;
    var sum := freq0 + freq1;
    if freq0 > freq1 {
      val := 128;
      freq0 := freq1;
    }
    var k: nat, m, s := 0, freq0 * 8, sum * 5;
    ScaledOnce(ctx);
    while m < s
      invariant k <= 5 && m == Scaled(ctx, k) && 0 < m && m < 2 * s && (k == 0 ==> m < s)
      decreases s - m
    {
      ScaledTwice(ctx, k);
      k, m := k + 1, m * 2;
    }
    assert k >= 1;
    if m < sum * 7 {
      k := k + 2;
      val := val + 64;
    }
    e := val + k;
  }

  lemma ScaledOnce(ctx: byte)
    ensures Scaled(ctx, 0) == 8 * Rare(ctx)
  {
  }

  /** A rare count is at least 1 of at most 32, so five shifts are enough. */
  lemma ScaledTwice(ctx: byte, k: nat)
    requires k <= 5 && Scaled(ctx, k) < 5 * Sum(ctx)
    ensures k < 5 && Scaled(ctx, k + 1) == 2 * Scaled(ctx, k)
  {
    Powers();
  }

  lemma MoreValue(stream: nat -> byte, n: nat)
    ensures Value(stream, n + 1) == 256 * Value(stream, n) + stream(n)
  {
  }

  lemma NoOverflow(alow: int, arange: int, b: byte)
    requires 0 <= alow < arange < RANGE_MIN
    ensures (alow * 256 % TWO32 + b) % 0x100_0000 == alow * 256 + b < arange * 256
    ensures arange * 256 % TWO32 == arange * 256
  {
  }

  /** The bytes of the stream never run out. */
  class Decoder {
    const stream: nat -> byte
    var pos: nat
    var alow: int
    var arange: int
    /** The low end of the interval that the bits so far have singled out. */
    ghost var low: nat

    ghost function Where(): Interval
      requires arange >= 0
      reads this
    {
      Interval(low, arange, pos)
    }

    ghost predicate Valid()
      reads this
    {
      && RANGE_MIN <= arange <= TOP && 0 <= alow < arange
      && low + alow == Value(stream, pos)
    }

    /** arith_init. */
    constructor (s: nat -> byte)
      ensures Valid() && stream == s && Where() == Interval(0, TOP, 3)
    {
      stream := s;
      arange := TOP;
      alow := s(0) * 65536 + s(1) * 256 + s(2);
      pos, low := 3, 0;
      assert Value(s, 1) == s(0);
      assert Value(s, 2) == 256 * Value(s, 1) + s(1);
      assert Value(s, 3) == 256 * Value(s, 2) + s(2);
    }

    /** The comparison with the decision level. */
    method Choose(e: byte, ghost ctx: byte) returns (raw: bool)
      requires Valid() && Rounds(ctx, e)
      modifies this`alow, this`arange, this`low
      ensures 0 < Level(e, old(arange)) < old(arange)
      ensures 0 <= alow < arange && 4 <= arange <= TOP && Where() == Part(old(Where()), e, raw != Inverted(e)) && low + alow == Value(stream, pos)
    {
      hide Rounds, Value;
      LevelBounds(ctx, e, arange);
      var range := arange;
      if ThreeQuarters(e) { range := range * 3 % TWO32; }
      range := range / Pow2(Shift(e));
      raw := alow >= range;
      if raw {
        alow, arange := alow - range, arange - range;
        low := low + range;
      } else {
        arange := range;
      }
    }

    /** One byte is always enough, and the mask cuts nothing off. */
    method Renormalise()
      requires 0 <= alow < arange && 4 <= arange <= TOP && low + alow == Value(stream, pos)
      modifies this
      ensures Valid() && pos <= old(pos) + 1 && Where() == Renormalised(old(Where()))
    {
      if arange < RANGE_MIN {
        hide Value;
        MoreValue(stream, pos);
        NoOverflow(alow, arange, stream(pos));
        alow := (alow * 256 % TWO32 + stream(pos)) % 0x100_0000;
        arange := arange * 256 % TWO32;
        pos := pos + 1;
        low := 256 * low;
      }
    }

    /** decode_ctx. */
    method DecodeCtx(t: ContextTables, ctx: array<byte>, i: nat) returns (b: bool)
      requires Valid() && t.Valid() && i < ctx.Length && ctx != t.shift
      modifies this, ctx
      ensures Valid() && t.Valid() && pos <= old(pos) + 1
      ensures ctx[..] == old(ctx[..])[i := Bumped(b, old(ctx[i]))]
      ensures 0 < Level(old(t.shift[ctx[i]]), old(arange)) < old(arange)
      ensures Where() == Narrowed(old(Where()), old(t.shift[ctx[i]]), b)
    {
      hide Rounds, Bumped, Level, Part, Renormalised;
      var ctxval := ctx[i];
      var e := t.shift[ctxval];
      assert Rounds(ctxval, t.shift[..][ctxval]);
      var raw := Choose(e, ctxval);
      b := raw != Inverted(e);
      ctx[i] := t.incr[if b then 1 else 0, ctxval];
      Renormalise();
    }
  }
}
