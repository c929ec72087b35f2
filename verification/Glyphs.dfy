/** The glyph decoder of libfbf.c: contexts from neighbouring pixels, and rows
    of decoded pixels packed into bytes. */
module Glyphs {
  import opened Bytes
  import opened ArithmeticCode
  import opened ArithmeticDecoder
  import opened ArithmeticRuns

  const MAXDIST: int := 4
  const MAXWIDTH: int := 128
  const MAXHEIGHT: int := 128
  const WRAP: int := MAXWIDTH + 2 * MAXDIST
  const NB_CTX: int := 4096 * 3 * 3
  const NB_CTX1: int := 1024

  /** The pixels a context is made of; the first two have a third value, for a
      place too near to the border. */
  datatype Around = Around(m: int, t: int, k: int, g: int, e: int, h: int, i: int, j: int, b: int, d: int, l: int, f: int, a: int, c: int)

  predicate Pixel(v: int) { 0 <= v <= 1 }

  predicate AroundOk(n: Around) {
    && 0 <= n.m <= 2 && 0 <= n.t <= 2
    && Pixel(n.k) && Pixel(n.g) && Pixel(n.e) && Pixel(n.h) && Pixel(n.i) && Pixel(n.j)
    && Pixel(n.b) && Pixel(n.d) && Pixel(n.l) && Pixel(n.f) && Pixel(n.a) && Pixel(n.c)
  }

  /** The context number. */
  function CtxOf(n: Around): int {
    var v0 := n.m;
    var v1 := v0 * 3 + n.t;
    var v2 := v1 * 4 + n.k + n.g * 2;
    var v3 := v2 * 2 + n.e;
    var v4 := v3 * 8 + n.h + n.i * 2 + n.j * 4;
    var v5 := v4 * 16 + n.b + n.d * 2 + n.l * 4 + n.f * 8;
    v5 * 4 + n.a + n.c * 2
  }

  /** Context numbers stay inside the table, and no two neighbourhoods share one. */
  lemma CtxRange(n: Around)
    requires AroundOk(n)
    ensures 0 <= CtxOf(n) < NB_CTX
  {
  }

  lemma CtxInjective(n: Around, o: Around)
    requires AroundOk(n) && AroundOk(o) && CtxOf(n) == CtxOf(o)
    ensures n == o
  {
    var n1, o1 := n.m * 3 + n.t, o.m * 3 + o.t;
    var nk, ok := n.k + n.g * 2, o.k + o.g * 2;
    var nh, oh := n.h + n.i * 2 + n.j * 4, o.h + o.i * 2 + o.j * 4;
    var nb, ob := n.b + n.d * 2 + n.l * 4 + n.f * 8, o.b + o.d * 2 + o.l * 4 + o.f * 8;
    var na, oa := n.a + n.c * 2, o.a + o.c * 2;
    SameFields(n1, nk, n.e, nh, nb, na, o1, ok, o.e, oh, ob, oa);
    SameBits(n, o);
  }

  lemma SameFields(n1: int, nk: int, ne: int, nh: int, nb: int, na: int, o1: int, ok: int, oe: int, oh: int, ob: int, oa: int)
    requires 0 <= nk < 4 && 0 <= ne < 2 && 0 <= nh < 8 && 0 <= nb < 16 && 0 <= na < 4
    requires 0 <= ok < 4 && 0 <= oe < 2 && 0 <= oh < 8 && 0 <= ob < 16 && 0 <= oa < 4
    requires ((((n1 * 4 + nk) * 2 + ne) * 8 + nh) * 16 + nb) * 4 + na == ((((o1 * 4 + ok) * 2 + oe) * 8 + oh) * 16 + ob) * 4 + oa
    ensures n1 == o1 && nk == ok && ne == oe && nh == oh && nb == ob && na == oa
  {
    var n2, o2 := n1 * 4 + nk, o1 * 4 + ok;
    var n3, o3 := n2 * 2 + ne, o2 * 2 + oe;
    var n4, o4 := n3 * 8 + nh, o3 * 8 + oh;
    SameLow(n4 * 16 + nb, o4 * 16 + ob, na, oa, 4);
    SameLow(n4, o4, nb, ob, 16);
    SameLow(n3, o3, nh, oh, 8);
    SameLow(n2, o2, ne, oe, 2);
    SameLow(n1, o1, nk, ok, 4);
  }

  lemma SameBits(n: Around, o: Around)
    requires AroundOk(n) && AroundOk(o) && n.m * 3 + n.t == o.m * 3 + o.t && n.e == o.e
    requires n.k + n.g * 2 == o.k + o.g * 2 && n.a + n.c * 2 == o.a + o.c * 2
    requires n.h + n.i * 2 + n.j * 4 == o.h + o.i * 2 + o.j * 4
    requires n.b + n.d * 2 + n.l * 4 + n.f * 8 == o.b + o.d * 2 + o.l * 4 + o.f * 8
    ensures n == o
  {
  }

  lemma SameLow(a: int, b: int, x: int, y: int, base: int)
    requires base in {2, 4, 8, 16} && 0 <= x < base && 0 <= y < base && a * base + x == b * base + y
    ensures a == b && x == y
  {
  }

  predicate Pixels(bitmap: seq<byte>) {
    |bitmap| == WRAP * (MAXHEIGHT + MAXDIST) && forall i :: 0 <= i < |bitmap| ==> bitmap[i] <= 1
  }

  /** The pixels that get_ctx reads. */
  function AroundAt(x: nat, y: nat, bitmap: seq<byte>, p: nat): (n: Around)
    requires Pixels(bitmap) && MAXDIST + WRAP * MAXDIST <= p < |bitmap|
    ensures AroundOk(n)
  {
    Around(
      if y >= 4 then bitmap[p - 3 * WRAP] else 2,
      if x >= 4 then bitmap[p - 3] else 2,
      bitmap[p - 2 * WRAP + 2], bitmap[p - 2 * WRAP - 2],
      bitmap[p - 2],
      bitmap[p - 2 * WRAP - 1], bitmap[p - 2 * WRAP], bitmap[p - 2 * WRAP + 1],
      bitmap[p - WRAP - 1], bitmap[p - WRAP + 1], bitmap[p - WRAP + 2], bitmap[p - WRAP - 2],
      bitmap[p - 1], bitmap[p - WRAP])
  }

  /** get_ctx. */
  function GetCtx(x: nat, y: nat, bitmap: seq<byte>, p: nat): (v: int)
    requires Pixels(bitmap) && MAXDIST + WRAP * MAXDIST <= p < |bitmap|
    ensures 0 <= v < NB_CTX
  {
    CtxRange(AroundAt(x, y, bitmap, p));
    CtxOf(AroundAt(x, y, bitmap, p))
  }

  // The code of a glyph

  /** What decode_glyph keeps between two pixels: how many are decoded, both
      context arrays, and the pixels. */
  datatype Canvas = Canvas(n: nat, shared: seq<byte>, own: seq<byte>, bitmap: seq<byte>)

  /** Where pixel n of a glyph of width w is kept. */
  function Spot(w: nat, n: nat): nat
    requires w > 0
  {
    MAXDIST + WRAP * (MAXDIST + n / w) + n % w
  }

  predicate CanvasOk(w: nat, c: Canvas) {
    |c.shared| == NB_CTX1 && |c.own| == NB_CTX && Pixels(c.bitmap) && w > 0 && Spot(w, c.n) < |c.bitmap|
  }

  /** A context that has counted at most one bit. */
  predicate Young(ctx: byte) {
    ctx == 0x00 || ctx == 0x10 || ctx == 0x01
  }

  function Place(w: nat, c: Canvas): (v: nat)
    requires CanvasOk(w, c)
    ensures v < NB_CTX
  {
    GetCtx(c.n % w, c.n / w, c.bitmap, Spot(w, c.n))
  }

  /** A young context borrows the shared context of its low bits, and both count. */
  function Counts(w: nat, c: Canvas): byte
    requires CanvasOk(w, c)
  {
    var v := Place(w, c);
    if Young(c.own[v]) then c.shared[v % NB_CTX1] else c.own[v]
  }

  function Drawn(w: nat, c: Canvas, b: bool): Canvas
    requires CanvasOk(w, c)
  {
    var v := Place(w, c);
    Canvas(c.n + 1,
           if Young(c.own[v]) then c.shared[v % NB_CTX1 := Bumped(b, c.shared[v % NB_CTX1])] else c.shared,
           c.own[v := Bumped(b, c.own[v])],
           c.bitmap[Spot(w, c.n) := if b then 1 else 0])
  }

  function Painter(w: nat): Source<Canvas> {
    Source((c: Canvas) => if CanvasOk(w, c) then Counts(w, c) else 0,
           (c: Canvas, b: bool) => if CanvasOk(w, c) then Drawn(w, c, b) else c)
  }

  const BLANK: seq<byte> := seq(WRAP * (MAXHEIGHT + MAXDIST), i => 1)

  /** A context is young until it has counted a second bit. */
  lemma YoungCounts(ctx: byte)
    ensures Young(ctx) <==> Freq0(ctx) + Freq1(ctx) <= 4
  {
    Nibbles(ctx);
  }

  // The pixels of a context

  /** Pixel (x, y) of the picture whose first pixels, row by row, are `bits`; what
      is not there counts as set. */
  function PixelOf(bits: seq<bool>, w: nat, x: int, y: int): int {
    if 0 <= x < w && 0 <= y && 0 <= w * y + x < |bits| && !bits[w * y + x] then 0 else 1
  }

  /** Where pixel (x, y) is kept. */
  function Cell(x: int, y: int): int { MAXDIST + WRAP * (MAXDIST + y) + x }

  predicate Inside(x: int, y: int) { -MAXDIST <= x < MAXWIDTH + MAXDIST && -MAXDIST <= y < MAXHEIGHT }

  /** The bitmap shows the picture. */
  ghost predicate Shows(w: nat, bits: seq<bool>, bitmap: seq<byte>) {
    |bitmap| == WRAP * (MAXHEIGHT + MAXDIST)
    && forall x: int, y: int :: Inside(x, y) ==> 0 <= Cell(x, y) < |bitmap| && bitmap[Cell(x, y)] == PixelOf(bits, w, x, y)
  }

  lemma ShowsBlank(w: nat)
    ensures Shows(w, [], BLANK)
  {
  }

  /** One more pixel. */
  lemma ShowsMore(w: nat, bits: seq<bool>, bitmap: seq<byte>, b: bool, x: nat, y: nat)
    requires Shows(w, bits, bitmap) && x < w <= MAXWIDTH && y < MAXHEIGHT && |bits| == w * y + x
    ensures 0 <= Cell(x, y) < |bitmap| && Shows(w, bits + [b], bitmap[Cell(x, y) := if b then 1 else 0])
  {
    assert Inside(x, y);
    var next, more := bitmap[Cell(x, y) := if b then 1 else 0], bits + [b];
    forall u: int, v: int | Inside(u, v) ensures 0 <= Cell(u, v) < |next| && next[Cell(u, v)] == PixelOf(more, w, u, v) {
      assert 0 <= Cell(u, v) < |bitmap| && bitmap[Cell(u, v)] == PixelOf(bits, w, u, v);
      PixelMore(bits, w, b, x, y, u, v);
      if u != x || v != y { OtherCell(x, y, u, v); }
    }
  }

  lemma OtherCell(x: int, y: int, u: int, v: int)
    requires Inside(x, y) && Inside(u, v) && (u != x || v != y)
    ensures Cell(u, v) != Cell(x, y)
  {
  }

  lemma PixelMore(bits: seq<bool>, w: nat, b: bool, x: nat, y: nat, u: int, v: int)
    requires x < w && |bits| == w * y + x
    ensures PixelOf(bits + [b], w, u, v) == if u == x && v == y then (if b then 1 else 0) else PixelOf(bits, w, u, v)
  {
    if 0 <= u < w && 0 <= v && w * v + u == w * y + x { SameParts(w, y, x, v, u); }
  }

  /** The neighbourhood that get_ctx reads, as pixels of the picture: column and
      row, counted from the pixel to be decoded. */
  function AroundOf(bits: seq<bool>, w: nat, x: nat, y: nat): Around {
    Around(
      if y >= 4 then PixelOf(bits, w, x, y - 3) else 2,
      if x >= 4 then PixelOf(bits, w, x - 3, y) else 2,
      PixelOf(bits, w, x + 2, y - 2), PixelOf(bits, w, x - 2, y - 2),
      PixelOf(bits, w, x - 2, y),
      PixelOf(bits, w, x - 1, y - 2), PixelOf(bits, w, x, y - 2), PixelOf(bits, w, x + 1, y - 2),
      PixelOf(bits, w, x - 1, y - 1), PixelOf(bits, w, x + 1, y - 1), PixelOf(bits, w, x + 2, y - 1), PixelOf(bits, w, x - 2, y - 1),
      PixelOf(bits, w, x - 1, y), PixelOf(bits, w, x, y - 1))
  }

  /** The pixel dx to the right and dy rows above. */
  lemma ShownAt(w: nat, bits: seq<bool>, bitmap: seq<byte>, x: int, y: int, dx: int, dy: int)
    requires Shows(w, bits, bitmap) && Inside(x + dx, y - dy)
    ensures var p := Cell(x, y) - WRAP * dy + dx;
      0 <= p < |bitmap| && bitmap[p] == PixelOf(bits, w, x + dx, y - dy)
  {
    hide PixelOf;
    assert Cell(x + dx, y - dy) == Cell(x, y) - WRAP * dy + dx;
  }

  lemma CtxOfPicture(w: nat, bits: seq<bool>, bitmap: seq<byte>, x: nat, y: nat)
    requires Shows(w, bits, bitmap) && Pixels(bitmap) && x < w <= MAXWIDTH && y < MAXHEIGHT
    ensures MAXDIST + WRAP * MAXDIST <= Cell(x, y) < |bitmap| && AroundAt(x, y, bitmap, Cell(x, y)) == AroundOf(bits, w, x, y)
  {
    hide PixelOf, Shows;
    ShownAt(w, bits, bitmap, x, y, 0, 0);
    assert Cell(x, y) >= MAXDIST + WRAP * MAXDIST;
    hide Cell, Pixels;
    ShownAt(w, bits, bitmap, x, y, 0, 3);
    ShownAt(w, bits, bitmap, x, y, -3, 0);
    ShownAt(w, bits, bitmap, x, y, 2, 2);
    ShownAt(w, bits, bitmap, x, y, -2, 2);
    ShownAt(w, bits, bitmap, x, y, -2, 0);
    ShownAt(w, bits, bitmap, x, y, -1, 2);
    ShownAt(w, bits, bitmap, x, y, 0, 2);
    ShownAt(w, bits, bitmap, x, y, 1, 2);
    ShownAt(w, bits, bitmap, x, y, -1, 1);
    ShownAt(w, bits, bitmap, x, y, 1, 1);
    ShownAt(w, bits, bitmap, x, y, 2, 1);
    ShownAt(w, bits, bitmap, x, y, -2, 1);
    ShownAt(w, bits, bitmap, x, y, -1, 0);
    ShownAt(w, bits, bitmap, x, y, 0, 1);
  }

  /** The state after the pixels `bits`, with their picture. */
  ghost predicate CanvasAt(w: nat, bits: seq<bool>, c: Canvas) {
    c.n == |bits| && Shows(w, bits, c.bitmap) && Pixels(c.bitmap) && |c.shared| == NB_CTX1 && |c.own| == NB_CTX
  }

  /** The context of the next pixel is that of its neighbours in the picture so
      far. */
  lemma CanvasCtx(w: nat, h: nat, bits: seq<bool>, c: Canvas)
    requires CanvasAt(w, bits, c) && 0 < w <= MAXWIDTH && h <= MAXHEIGHT && |bits| < w * h
    ensures CanvasOk(w, c) && Place(w, c) == CtxOf(AroundOf(bits, w, |bits| % w, |bits| / w))
  {
    hide Shows, CtxOf, Pixels, AroundAt, AroundOf;
    PlaceIn(w, h, |bits|);
    SpotInside(w, c);
    CtxOfPicture(w, bits, c.bitmap, |bits| % w, |bits| / w);
  }

  lemma CanvasNext(w: nat, h: nat, bits: seq<bool>, c: Canvas, b: bool)
    requires CanvasAt(w, bits, c) && 0 < w <= MAXWIDTH && h <= MAXHEIGHT && |bits| < w * h
    ensures CanvasOk(w, c) && CanvasAt(w, bits + [b], Drawn(w, c, b))
  {
    hide Shows, GetCtx, Pixels, Bumped;
    PlaceIn(w, h, |bits|);
    SpotInside(w, c);
    DrawnPixels(w, c, b);
    ShowsMore(w, bits, c.bitmap, b, |bits| % w, |bits| / w);
  }

  /** Over a whole glyph the canvas shows the picture. */
  lemma {:induction false} CanvasShows(table: seq<byte>, w: nat, h: nat, at: Coder<Canvas>, bits: seq<bool>)
    requires TableOk(table) && Legal(at.iv) && 0 < w <= MAXWIDTH && h <= MAXHEIGHT && |bits| <= w * h
    requires at.state.n == 0 && at.state.bitmap == BLANK && |at.state.shared| == NB_CTX1 && |at.state.own| == NB_CTX
    ensures CanvasAt(w, bits, Coded(table, Painter(w), at, bits).state)
    decreases |bits|
  {
    hide Coded, TableOk, Legal, Shows, Drawn, Counts, CanvasOk, Level, Narrowed, Pixels;
    if bits == [] {
      CodedNone(table, Painter(w), at);
      ShowsBlank(w);
      BlankPixels();
    } else {
      hide CanvasAt;
      var init, b := bits[..|bits| - 1], bits[|bits| - 1];
      LastBit(bits);
      CanvasShows(table, w, h, at, init);
      CodedMore(table, Painter(w), at, init, b);
      CanvasNext(w, h, init, Coded(table, Painter(w), at, init).state, b);
    }
  }

  lemma BlankPixels()
    ensures Pixels(BLANK)
  {
  }

  /** Pixel n of a glyph is in row n / w and column n % w. */
  lemma PlaceIn(w: nat, h: nat, n: nat)
    requires 0 < w <= MAXWIDTH && h <= MAXHEIGHT && n < w * h
    ensures 0 <= n % w < w && 0 <= n / w < h && n == w * (n / w) + n % w && Spot(w, n) == Cell(n % w, n / w)
  {
    InRow(w, h, n, n / w, n % w);
  }

  lemma InRow(w: nat, h: nat, n: nat, q: nat, m: nat)
    requires n == w * q + m && n < w * h
    ensures q < h
  {
    if q >= h { RowsFit(w, h, q); }
  }

  lemma RowsFit(w: nat, h: nat, y: nat)
    requires h <= y
    ensures w * h <= w * y
  {
    if h < y { RowFits(w, h, y); }
  }

  lemma SpotInside(w: nat, c: Canvas)
    requires 0 < w && 0 <= c.n % w < w <= MAXWIDTH && 0 <= c.n / w < MAXHEIGHT && Spot(w, c.n) == Cell(c.n % w, c.n / w)
    requires |c.shared| == NB_CTX1 && |c.own| == NB_CTX && Pixels(c.bitmap)
    ensures CanvasOk(w, c)
  {
    hide GetCtx;
  }

  // Packing

  /** A row of pixels as a number. */
  function BitsValue(s: seq<bool>): nat {
    if s == [] then 0 else 2 * BitsValue(s[..|s| - 1]) + if s[|s| - 1] then 1 else 0
  }

  lemma {:induction false} BitsConcat(a: seq<bool>, b: seq<bool>)
    ensures BitsValue(a + b) == BitsValue(a) * Pow2(|b|) + BitsValue(b)
  {
    if b == [] {
      assert a + b == a;
    } else {
      var c := b[..|b| - 1];
      assert (a + b)[..|a + b| - 1] == a + c;
      BitsConcat(a, c);
      Doubled(BitsValue(a), Pow2(|c|), Pow2(|b|));
    }
  }

  lemma Doubled(v: nat, p: nat, q: nat)
    requires q == 2 * p
    ensures v * q == 2 * (v * p)
  {
  }

  lemma {:induction false} BitsBound(s: seq<bool>)
    ensures BitsValue(s) < Pow2(|s|)
  {
    if s != [] { BitsBound(s[..|s| - 1]); }
  }

  function RowBytes(w: nat): nat { (w + 7) / 8 }

  /** Byte k of a packed row: eight pixels, the first one in the highest bit,
      and zeros after the last pixel. */
  function PackedByte(row: seq<bool>, k: nat): (v: byte)
    requires k < RowBytes(|row|)
  {
    var to := if 8 * k + 8 <= |row| then 8 * k + 8 else |row|;
    BitsBound(row[8 * k..to]);
    Powers();
    var n := to - 8 * k;
    BitsValue(row[8 * k..to]) * Pow2(8 - n)
  }

  /** The bit of a number that stands for pixel i of n. */
  lemma {:induction false} BitAt(s: seq<bool>, i: nat)
    requires i < |s|
    ensures BitsValue(s) / Pow2(|s| - 1 - i) % 2 == if s[i] then 1 else 0
    decreases |s|
  {
    var init, v, n := s[..|s| - 1], BitsValue(s[..|s| - 1]), |s|;
    if i < n - 1 {
      BitAt(init, i);
      HalfOf(v, if s[n - 1] then 1 else 0, Pow2(n - 2 - i));
      assert Pow2(n - 1 - i) == 2 * Pow2(n - 2 - i);
    }
  }

  lemma HalfOf(v: nat, b: nat, p: nat)
    requires b <= 1 && p > 0
    ensures (2 * v + b) / (2 * p) == v / p
  {
    var q, m := v / p, v % p;
    assert v == p * q + m;
    SameQuotient(2 * p, q, 2 * m + b, 2 * v + b);
  }

  lemma SameQuotient(d: nat, q: nat, m: nat, x: nat)
    requires d > 0 && m < d && x == d * q + m
    ensures x / d == q
  {
    SameParts(d, q, m, x / d, x % d);
  }

  /** Pixel i of a packed byte: the first pixel is the highest bit, and the bits
      behind the last pixel are 0. */
  lemma PackedBit(row: seq<bool>, k: nat, i: nat)
    requires k < RowBytes(|row|) && i < 8
    ensures PackedByte(row, k) / Pow2(7 - i) % 2 == if 8 * k + i < |row| && row[8 * k + i] then 1 else 0
  {
    var to := if 8 * k + 8 <= |row| then 8 * k + 8 else |row|;
    var s, n := row[8 * k..to], to - 8 * k;
    if i < n {
      BitAt(s, i);
      PowSum(8 - n, n - 1 - i);
      Unshift(BitsValue(s), Pow2(8 - n), Pow2(n - 1 - i));
    } else {
      PowSum(7 - i, i + 1 - n);
      EvenPart(BitsValue(s), Pow2(7 - i), Pow2(i - n), Pow2(8 - n));
    }
  }

  lemma {:induction false} PowSum(a: nat, b: nat)
    ensures Pow2(a + b) == Pow2(a) * Pow2(b)
    decreases b
  {
    if b > 0 {
      PowSum(a, b - 1);
      assert Pow2(a) * Pow2(b) == 2 * (Pow2(a) * Pow2(b - 1));
    }
  }

  lemma Unshift(v: nat, p: nat, q: nat)
    requires p > 0 && q > 0
    ensures v * p / (p * q) == v / q
  {
    var d, m := v / q, v % q;
    assert v == q * d + m;
    assert v * p == (p * q) * d + m * p;
    assert m * p < q * p by { assert (q - m) * p > 0; }
    SameQuotient(p * q, d, m * p, v * p);
  }

  lemma EvenPart(v: nat, p: nat, q: nat, pq: nat)
    requires p > 0 && pq == p * (2 * q)
    ensures v * pq / p % 2 == 0
  {
    assert v * pq == p * (2 * (v * q)) + 0;
    SameQuotient(p, 2 * (v * q), 0, v * pq);
  }

  /** The byte written when pixel x - 1 closes byte k, or when it closes the row. */
  lemma PackedFull(row: seq<bool>, k: nat, lbuf: int)
    requires 8 * k + 8 <= |row| && lbuf == BitsValue(row[..8 * k + 8]) % TWO32
    ensures lbuf % 256 == PackedByte(row, k)
  {
    var last := row[8 * k..8 * k + 8];
    assert row[..8 * k + 8] == row[..8 * k] + last;
    BitsConcat(row[..8 * k], last);
    BitsBound(last);
    Powers();
    assert Pow2(8) == 256;
    hide Pow2, BitsValue;
    var hi, lo := BitsValue(row[..8 * k]), BitsValue(last);
    var z := hi * 256 + lo;
    Mod256(hi - 0x100_0000 * (z / TWO32), lo, z % TWO32);
  }

  lemma PackedRest(row: seq<bool>, lbuf: int)
    requires |row| % 8 != 0 && lbuf == BitsValue(row) % TWO32
    ensures lbuf * Pow2(8 - |row| % 8) % TWO32 % 256 == PackedByte(row, |row| / 8)
  {
    var n := |row| % 8;
    var k := |row| / 8;
    var last := row[8 * k..];
    assert row == row[..8 * k] + last && row[8 * k..|row|] == last;
    BitsConcat(row[..8 * k], last);
    BitsBound(last);
    Powers();
    ShiftedOut(BitsValue(row[..8 * k]), BitsValue(last), n);
  }

  /** The high pixels leave the byte. */
  lemma ShiftedOut(hi: nat, lo: nat, n: nat)
    requires 1 <= n <= 7 && lo < Pow2(n)
    ensures (hi * Pow2(n) + lo) % TWO32 * Pow2(8 - n) % TWO32 % 256 == lo * Pow2(8 - n)
  {
    Powers();
    match n
    case 1 => Leaves(hi, lo, 2, 128);
    case 2 => Leaves(hi, lo, 4, 64);
    case 3 => Leaves(hi, lo, 8, 32);
    case 4 => Leaves(hi, lo, 16, 16);
    case 5 => Leaves(hi, lo, 32, 8);
    case 6 => Leaves(hi, lo, 64, 4);
    case _ => Leaves(hi, lo, 128, 2);
  }

  lemma Leaves(hi: nat, lo: nat, p: nat, q: nat)
    requires p * q == 256 && lo < p
    ensures (hi * p + lo) % TWO32 * q % TWO32 % 256 == lo * q
  {
    var x := hi * p + lo;
    var r, k := x % TWO32, x / TWO32;
    var z := r * q;
    assert lo * q < 256 by { assert (p - lo) * q >= q > 0; }
    assert z == x * q - TWO32 * k * q;
    assert x * q == hi * 256 + lo * q by { assert hi * p * q == hi * (p * q); }
    Mod256(hi - 0x100_0000 * (k * q) - 0x100_0000 * (z / TWO32), lo * q, z % TWO32);
  }

  lemma Mod256(a: int, b: int, z: int)
    requires 0 <= b < 256 && z == 256 * a + b
    ensures z % 256 == b
  {
  }

  // Decoding

  /** One pixel. */
  method DecodePixel(t: ContextTables, d: Decoder, ctx1: array<byte>, ctxAdapt: array<byte>, v: nat) returns (b: bool)
    requires t.Valid() && d.Valid() && ctx1.Length == NB_CTX1 && ctxAdapt.Length == NB_CTX && v < NB_CTX
    requires ctx1 != t.shift && ctxAdapt != t.shift && ctx1 != ctxAdapt
    modifies d, ctx1, ctxAdapt
    ensures t.Valid() && d.Valid()
    ensures ctxAdapt[..] == old(ctxAdapt[..])[v := Bumped(b, old(ctxAdapt[v]))]
    ensures ctx1[..] == if Young(old(ctxAdapt[v])) then old(ctx1[..])[v % NB_CTX1 := Bumped(b, old(ctx1[v % NB_CTX1]))] else old(ctx1[..])
    ensures var e := old(t.shift[if Young(ctxAdapt[v]) then ctx1[v % NB_CTX1] else ctxAdapt[v]]);
      0 < Level(e, old(d.arange)) < old(d.arange) && d.Where() == Narrowed(old(d.Where()), e, b)
  {
    hide Bumped, TableOk, Level, Narrowed;
    if ctxAdapt[v] == 0x00 || ctxAdapt[v] == 0x10 || ctxAdapt[v] == 0x01 {
      b := d.DecodeCtx(t, ctx1, v % NB_CTX1);
      ctxAdapt[v] := t.incr[if b then 1 else 0, ctxAdapt[v]];
    } else {
      b := d.DecodeCtx(t, ctxAdapt, v);
    }
  }

  /** One pixel and its place in the bitmap: one step of the code of the glyph. */
  method DecodeAt(t: ContextTables, d: Decoder, ctx1: array<byte>, ctxAdapt: array<byte>, bitmap: array<byte>,
                  ghost w: nat, ghost n: nat, x: nat, y: nat, p: nat) returns (b: bool)
    requires t.Valid() && d.Valid() && ctx1 != t.shift && ctxAdapt != t.shift && ctx1 != ctxAdapt
    requires bitmap != t.shift && bitmap != ctx1 && bitmap != ctxAdapt
    requires CanvasOk(w, Canvas(n, ctx1[..], ctxAdapt[..], bitmap[..])) && x == n % w && y == n / w && p == Spot(w, n)
    modifies d, ctx1, ctxAdapt, bitmap
    ensures t.Valid() && d.Valid()
    ensures var was := old(Canvas(n, ctx1[..], ctxAdapt[..], bitmap[..]));
      var e := old(t.shift[..])[Counts(w, was)];
      && Canvas(n + 1, ctx1[..], ctxAdapt[..], bitmap[..]) == Drawn(w, was, b)
      && 0 < Level(e, old(d.arange)) < old(d.arange) && d.Where() == Narrowed(old(d.Where()), e, b)
  {
    hide Bumped, TableOk, Level, Narrowed, GetCtx;
    var v := GetCtx(x, y, bitmap[..], p);
    b := DecodePixel(t, d, ctx1, ctxAdapt, v);
    bitmap[p] := if b then 1 else 0;
  }

  lemma RowAndColumn(w: nat, y: nat, x: nat)
    requires x < w
    ensures (w * y + x) / w == y && (w * y + x) % w == x
  {
    var n := w * y + x;
    SameParts(w, y, x, n / w, n % w);
  }

  lemma SameParts(w: nat, y: nat, x: nat, q: nat, r: nat)
    requires x < w && r < w && w * y + x == w * q + r
    ensures y == q && x == r
  {
    if y > q { RowFits(w, q, y); } else if y < q { RowFits(w, y, q); }
  }

  lemma SpotIn(w: nat, y: nat, x: nat)
    requires x < w <= MAXWIDTH && y < MAXHEIGHT
    ensures Spot(w, w * y + x) == MAXDIST + WRAP * (MAXDIST + y) + x < WRAP * (MAXHEIGHT + MAXDIST)
  {
    RowAndColumn(w, y, x);
  }

  lemma DrawnPixels(w: nat, c: Canvas, b: bool)
    requires CanvasOk(w, c)
    ensures Pixels(Drawn(w, c, b).bitmap)
  {
    hide GetCtx, Bumped;
  }

  /** The decoder stands where the code of the pixels `bits` of a glyph ends. */
  ghost predicate AtCode(table: seq<byte>, w: nat, at: Coder<Canvas>, bits: seq<bool>, c: Canvas, iv: Interval)
    requires TableOk(table) && Legal(at.iv)
  {
    Coded(table, Painter(w), at, bits) == Coder(c, iv)
  }

  lemma AtCodeMore(table: seq<byte>, w: nat, at: Coder<Canvas>, bits: seq<bool>, c: Canvas, iv: Interval, b: bool)
    requires TableOk(table) && Legal(at.iv) && AtCode(table, w, at, bits, c, iv) && CanvasOk(w, c)
    ensures var e := table[Counts(w, c)];
      && 0 < Level(e, iv.range) < iv.range
      && AtCode(table, w, at, bits + [b], Drawn(w, c, b), Narrowed(iv, e, b))
  {
    hide TableOk, Level, Narrowed, Counts, Drawn, CanvasOk, Coded;
    CodedMore(table, Painter(w), at, bits, b);
  }

  /** One row of decode_glyph. */
  method DecodeRow(t: ContextTables, d: Decoder, ctx1: array<byte>, ctxAdapt: array<byte>, bitmap: array<byte>, out: array<byte>, y: nat, w: nat, o: nat,
                   ghost at: Coder<Canvas>, ghost before: seq<bool>) returns (ghost row: seq<bool>)
    requires t.Valid() && d.Valid() && ctx1.Length == NB_CTX1 && ctxAdapt.Length == NB_CTX && Pixels(bitmap[..])
    requires ctx1 != t.shift && ctxAdapt != t.shift && bitmap != t.shift && out != t.shift && ctx1 != ctxAdapt
    requires bitmap != ctx1 && bitmap != ctxAdapt && out != ctx1 && out != ctxAdapt && out != bitmap
    requires y < MAXHEIGHT && w <= MAXWIDTH && o + RowBytes(w) <= out.Length && Legal(at.iv)
    requires AtCode(t.shift[..], w, at, before, Canvas(w * y, ctx1[..], ctxAdapt[..], bitmap[..]), d.Where())
    modifies d, ctx1, ctxAdapt, bitmap, out
    ensures t.Valid() && d.Valid() && Pixels(bitmap[..]) && |row| == w && t.shift[..] == old(t.shift[..])
    ensures AtCode(t.shift[..], w, at, before + row, Canvas(w * y + w, ctx1[..], ctxAdapt[..], bitmap[..]), d.Where())
    ensures forall k :: 0 <= k < RowBytes(w) ==> out[o + k] == PackedByte(row, k)
    ensures forall i :: 0 <= i < out.Length && !(o <= i < o + RowBytes(w)) ==> out[i] == old(out[i])
  {
    hide PackedByte, BitsValue, GetCtx, Bumped, TableOk, AtCode, Drawn, Counts, Level, Narrowed, Spot;
    ghost var table := t.shift[..];
    var lbuf, p, q := 0, MAXDIST + WRAP * (MAXDIST + y), o;
    row := [];
    assert before + [] == before;
    BitsNil();
    for x := 0 to w
      invariant t.Valid() && d.Valid() && Pixels(bitmap[..]) && p == MAXDIST + WRAP * (MAXDIST + y) + x && t.shift[..] == table
      invariant AtCode(table, w, at, before + row, Canvas(w * y + x, ctx1[..], ctxAdapt[..], bitmap[..]), d.Where())
      invariant |row| == x && lbuf == BitsValue(row) % TWO32 && q == o + x / 8
      invariant forall k :: 0 <= k < x / 8 ==> out[o + k] == PackedByte(row, k)
      invariant forall i :: 0 <= i < out.Length && !(o <= i < o + x / 8) ==> out[i] == old(out[i])
    {
      RowAndColumn(w, y, x);
      SpotIn(w, y, x);
      ghost var was, iv := Canvas(w * y + x, ctx1[..], ctxAdapt[..], bitmap[..]), d.Where();
      var b := DecodeAt(t, d, ctx1, ctxAdapt, bitmap, w, w * y + x, x, y, p);
      AtCodeMore(table, w, at, before + row, was, iv, b);
      DrawnPixels(w, was, b);
      assert before + row + [b] == before + (row + [b]);
      p := p + 1;
      lbuf := (lbuf * 2 + if b then 1 else 0) % TWO32;
      PackedPush(row, b);
      row := row + [b];
      if x % 8 == 7 {
        assert row[..8 * (x / 8) + 8] == row;
        PackedFull(row, x / 8, lbuf);
        out[q] := lbuf % 256;
        q := q + 1;
      }
    }
    var i := w % 8;
    if i != 0 {
      PackedRest(row, lbuf);
      out[q] := lbuf * Pow2(8 - i) % TWO32 % 256;
    }
  }

  lemma BitsNil()
    ensures BitsValue([]) == 0
  {
  }

  /** The bytes already packed stay the same when the row goes on. */
  lemma PackedPush(row: seq<bool>, b: bool)
    ensures BitsValue(row + [b]) % TWO32 == (BitsValue(row) % TWO32 * 2 + if b then 1 else 0) % TWO32
    ensures forall k :: 0 <= k < |row| / 8 ==> PackedByte(row + [b], k) == PackedByte(row, k)
  {
    assert (row + [b])[..|row|] == row;
    Wraps(BitsValue(row), if b then 1 else 0);
    forall k | 0 <= k < |row| / 8
      ensures PackedByte(row + [b], k) == PackedByte(row, k)
    {
      hide BitsValue, Pow2;
      assert (row + [b])[8 * k..8 * k + 8] == row[8 * k..8 * k + 8];
    }
  }

  lemma Wraps(v: nat, b: nat)
    ensures (2 * v + b) % TWO32 == (v % TWO32 * 2 + b) % TWO32
  {
    assert v == TWO32 * (v / TWO32) + v % TWO32;
    assert 2 * v + b == TWO32 * (2 * (v / TWO32)) + (v % TWO32 * 2 + b);
  }

  /** A packed row stands at a place. */
  ghost predicate RowAt(row: seq<bool>, w: nat, s: seq<byte>, at: nat) {
    && |row| == w && at + RowBytes(w) <= |s|
    && forall k :: 0 <= k < RowBytes(w) ==> s[at + k] == PackedByte(row, k)
  }

  /** The rows of a glyph packed one after the other. */
  ghost predicate Packed(bits: seq<bool>, w: nat, h: nat, s: seq<byte>) {
    |bits| == w * h && forall y :: 0 <= y < h ==> RowAt(RowOf(bits, w, h, y), w, s, RowStart(w, y))
  }

  /** Where row y is packed. */
  function RowStart(w: nat, y: nat): nat {
    RowBytes(w) * y
  }

  function RowOf(bits: seq<bool>, w: nat, h: nat, y: nat): seq<bool>
    requires |bits| == w * h && y < h
  {
    RowFits(w, y, h);
    bits[w * y..w * y + w]
  }

  lemma RowFits(r: nat, y: nat, h: nat)
    requires y < h
    ensures r * y + r == r * (y + 1) <= r * h
  {
    assert r * h == r * (y + 1) + r * (h - (y + 1));
  }

  lemma RowKept(row: seq<bool>, w: nat, s: seq<byte>, u: seq<byte>, at: nat, to: nat)
    requires RowAt(row, w, s, at) && |s| == |u| && at + RowBytes(w) <= to
    requires forall i :: 0 <= i < |s| && i < to ==> u[i] == s[i]
    ensures RowAt(row, w, u, at)
  {
    hide PackedByte;
  }

  lemma PackedMore(bits: seq<bool>, row: seq<bool>, w: nat, h: nat, s: seq<byte>, u: seq<byte>)
    requires Packed(bits, w, h, s) && |s| == |u| && |row| == w && RowAt(row, w, u, RowBytes(w) * h)
    requires forall i :: 0 <= i < |s| && i < RowBytes(w) * h ==> u[i] == s[i]
    ensures Packed(bits + row, w, h + 1, u)
  {
    hide RowAt, RowBytes, RowOf;
    RowFits(w, h, h + 1);
    forall y | 0 <= y < h + 1
      ensures RowAt(RowOf(bits + row, w, h + 1, y), w, u, RowBytes(w) * y)
    {
      RowsOf(bits, row, w, h, y);
      if y < h {
        RowFits(RowBytes(w), y, h);
        RowKept(RowOf(bits, w, h, y), w, s, u, RowBytes(w) * y, RowBytes(w) * h);
      }
    }
  }

  lemma RowsOf(bits: seq<bool>, row: seq<bool>, w: nat, h: nat, y: nat)
    requires |bits| == w * h && |row| == w && |bits + row| == w * (h + 1) && y < h + 1
    ensures RowOf(bits + row, w, h + 1, y) == if y < h then RowOf(bits, w, h, y) else row
  {
    if y < h {
      RowFits(w, y, h);
      assert (bits + row)[w * y..w * y + w] == bits[w * y..w * y + w];
    } else {
      assert (bits + row)[w * h..w * h + w] == row;
    }
  }

  /** decode_glyph: the pixels are those whose code holds the stream, row by row
      and packed, and both context arrays have counted them. */
  method DecodeGlyph(t: ContextTables, d: Decoder, ctx1: array<byte>, ctxAdapt: array<byte>, out: array<byte>, w: nat, h: nat)
      returns (ghost bits: seq<bool>)
    requires t.Valid() && d.Valid() && ctx1.Length == NB_CTX1 && ctxAdapt.Length == NB_CTX
    requires ctx1 != t.shift && ctxAdapt != t.shift && out != t.shift && ctx1 != ctxAdapt && out != ctx1 && out != ctxAdapt
    requires w <= MAXWIDTH && h <= MAXHEIGHT && out.Length == RowBytes(w) * h
    modifies d, ctx1, ctxAdapt, out
    ensures t.Valid() && d.Valid() && t.shift[..] == old(t.shift[..]) && Packed(bits, w, h, out[..])
    ensures var at := Coder(Canvas(0, old(ctx1[..]), old(ctxAdapt[..]), BLANK), old(d.Where()));
      var end := Coded(t.shift[..], Painter(w), at, bits);
      && end.state.shared == ctx1[..] && end.state.own == ctxAdapt[..] && end.iv == d.Where()
      && forall other :: |other| == w * h ==> (Contains(Coded(t.shift[..], Painter(w), at, other).iv, d.stream) <==> other == bits)
  {
    hide PackedByte, Bumped, TableOk, Packed, RowBytes, Coded;
    ghost var table, at := t.shift[..], Coder(Canvas(0, ctx1[..], ctxAdapt[..], BLANK), d.Where());
    var bitmap := new byte[WRAP * (MAXHEIGHT + MAXDIST)](_ => 1);
    assert bitmap[..] == BLANK;
    CodedNone(table, Painter(w), at);
    bits := [];
    PackedNone(w, out[..]);
    var o := 0;
    for y := 0 to h
      invariant t.Valid() && d.Valid() && Pixels(bitmap[..]) && o == RowBytes(w) * y && t.shift[..] == table
      invariant AtCode(table, w, at, bits, Canvas(w * y, ctx1[..], ctxAdapt[..], bitmap[..]), d.Where())
      invariant Packed(bits, w, y, out[..])
    {
      hide AtCode, Pixels;
      RowFits(RowBytes(w), y, h);
      RowFits(w, y, h);
      ghost var before := out[..];
      ghost var row := DecodeRow(t, d, ctx1, ctxAdapt, bitmap, out, y, w, o, at, bits);
      PackedMore(bits, row, w, y, before, out[..]);
      bits := bits + row;
      o := o + RowBytes(w);
    }
    PackedSize(bits, w, h, out[..]);
    OnlyThese(table, Painter(w), at, bits, d.stream);
  }

  lemma PackedSize(bits: seq<bool>, w: nat, h: nat, s: seq<byte>)
    requires Packed(bits, w, h, s)
    ensures |bits| == w * h
  {
  }

  lemma PackedNone(w: nat, s: seq<byte>)
    ensures Packed([], w, 0, s)
  {
  }

  /** Every picture has a code: whatever follows it, the decoder writes the
      picture. */
  method GlyphRoundTrip(t: ContextTables, ctx1: array<byte>, ctxAdapt: array<byte>, out: array<byte>, w: nat, h: nat, ghost bits: seq<bool>, stream: nat -> byte)
    requires t.Valid() && ctx1.Length == NB_CTX1 && ctxAdapt.Length == NB_CTX
    requires ctx1 != t.shift && ctxAdapt != t.shift && out != t.shift && ctx1 != ctxAdapt && out != ctx1 && out != ctxAdapt
    requires w <= MAXWIDTH && h <= MAXHEIGHT && out.Length == RowBytes(w) * h && |bits| == w * h
    requires Begins(stream, Encoding(t.shift[..], Painter(w), Canvas(0, ctx1[..], ctxAdapt[..], BLANK), bits))
    modifies ctx1, ctxAdapt, out
    ensures Packed(bits, w, h, out[..])
  {
    hide Packed, Begins, Encoding, Coded, TableOk, Painter, RowBytes;
    EncodingContained(t.shift[..], Painter(w), Canvas(0, ctx1[..], ctxAdapt[..], BLANK), bits, stream);
    var d := new Decoder(stream);
    ghost var decoded := DecodeGlyph(t, d, ctx1, ctxAdapt, out, w, h);
  }
}
