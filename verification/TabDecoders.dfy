/** eb_nextc for one byte charsets and for UTF-8 (buffer.c, util.c): both meet
    what tab conversion asks of a decoder, for all three kinds of line ends. */
module TabDecoders {
  import opened Bytes
  import opened Counting
  import opened TabLayout

  /** MAX_CHAR_BYTES. */
  const MAX_CHAR_BYTES: int := 6

  const INVALID_CHAR: int := 0xfffd

  type Decoder = seq<byte> -> Glyph

  /** The end of eb_nextc: line ends. A line feed after a DOS carriage return
      takes one byte, however it is written. */
  function WithLineEnds(eol: Eol, dec: Decoder, s: seq<byte>): Glyph {
    if s == [] then Glyph(LF, 0)
    else
      var g := dec(s);
      if g.c == CR && eol == Dos then
        if 1 <= g.n < |s| && dec(s[g.n..]).c == LF then Glyph(LF, g.n + 1) else g
      else if g.c == CR && eol == Mac then g.(c := LF)
      else if g.c == LF && eol == Mac then g.(c := CR)
      else g
  }

  /** A charset with a table for each byte. */
  function OneByte(table: byte -> int, s: seq<byte>): Glyph {
    if s == [] then Glyph(LF, 0) else Glyph(table(s[0]), 1)
  }

  function Lead(b: byte): (len: nat)
    ensures 1 <= len <= MAX_CHAR_BYTES
  {
    if b < 0xc0 then 1 else if b < 0xe0 then 2 else if b < 0xf0 then 3 else if b < 0xf8 then 4 else if b < 0xfc then 5 else 6
  }

  function LeadBits(b: byte): nat {
    if b < 0xe0 then b % 32 else if b < 0xf0 then b % 16 else if b < 0xf8 then b % 8 else if b < 0xfc then b % 4 else if b < 0xfe then b % 2 else b - 0xfc
  }

  /** n more trailing bytes from position i on. A sequence that breaks off is
      read as its first byte. */
  function Trails(s: seq<byte>, i: nat, n: nat, c: nat): (g: Glyph)
    requires s != []
    ensures g == Glyph(s[0], 1) || (g.n == i + n && (n > 0 ==> g.n <= |s|) && forall k :: i <= k < i + n && k < |s| ==> Trailing(s[k]))
    decreases n
  {
    if n == 0 then Glyph(c, i)
    else if i >= |s| || !Trailing(s[i]) then Glyph(s[0], 1)
    else Trails(s, i + 1, n - 1, c * 64 + (s[i] - 0x80))
  }

  /** The table of UTF-8 and utf8_decode: lax, so longer forms of a code are
      accepted. */
  function LaxUtf8(s: seq<byte>): Glyph {
    if s == [] then Glyph(LF, 0)
    else if s[0] < 0x80 then Glyph(s[0], 1)
    else if s[0] < 0xc0 then Glyph(INVALID_CHAR, 1)
    else Trails(s, 1, Lead(s[0]) - 1, LeadBits(s[0]))
  }

  // What both decoders have in common

  ghost predicate Sized(dec: Decoder) {
    forall s :: s != [] ==> 1 <= dec(s).n <= |s| && dec(s).n <= MAX_CHAR_BYTES
  }

  ghost predicate PlainBlanks(dec: Decoder) {
    forall s :: s != [] ==>
      && (s[0] == SPACE ==> dec(s) == Glyph(SPACE, 1)) && (s[0] == TAB ==> dec(s) == Glyph(TAB, 1))
      && (forall i :: 0 < i < dec(s).n && i < |s| ==> s[i] != TAB)
  }

  ghost predicate Local(dec: Decoder) {
    forall s, k :: MAX_CHAR_BYTES <= k <= |s| ==> dec(s[..k]) == dec(s)
  }

  predicate BlankAt(dec: Decoder, p: seq<byte>) {
    p != [] && (dec(p).c == SPACE || dec(p).c == TAB)
  }

  ghost predicate StopsAtBlank(dec: Decoder) {
    forall u, p, q :: u != [] && BlankAt(dec, p) && BlankAt(dec, q) ==> dec(u + p) == dec(u + q)
  }

  ghost predicate CharDecoder(dec: Decoder) {
    Sized(dec) && PlainBlanks(dec) && Local(dec) && StopsAtBlank(dec)
  }

  function TextRuler(tw: nat, width: int -> nat, eol: Eol, dec: Decoder): Ruler {
    Ruler(tw, width, s => WithLineEnds(eol, dec, s))
  }

  lemma NextIs(r: Ruler, tw: nat, width: int -> nat, eol: Eol, dec: Decoder, s: seq<byte>)
    requires r == TextRuler(tw, width, eol, dec) && Sized(dec) && s != []
    ensures Next(r, s) == WithLineEnds(eol, dec, s)
  {
    assert r.dec(s) == WithLineEnds(eol, dec, s);
    assert 1 <= dec(s).n <= |s|;
  }

  lemma AloneIn(r: Ruler, tw: nat, width: int -> nat, eol: Eol, dec: Decoder)
    requires r == TextRuler(tw, width, eol, dec) && Sized(dec) && PlainBlanks(dec)
    ensures BlanksAlone(r)
  {
    hide Next;
    forall s: seq<byte> | s != []
      ensures (s[0] == SPACE ==> Next(r, s) == Glyph(SPACE, 1)) && (s[0] == TAB ==> Next(r, s) == Glyph(TAB, 1))
      ensures forall i :: 0 < i < Next(r, s).n ==> s[i] != TAB
    {
      NextIs(r, tw, width, eol, dec, s);
      var g := dec(s);
      if g.n < |s| {
        var rest := s[g.n..];
        assert rest[0] == s[g.n] && (rest[0] == TAB ==> dec(rest) == Glyph(TAB, 1));
      }
    }
  }

  lemma LocalIn(r: Ruler, tw: nat, width: int -> nat, eol: Eol, dec: Decoder)
    requires r == TextRuler(tw, width, eol, dec) && Sized(dec) && Local(dec)
    ensures LooksAhead(r)
  {
    hide Next;
    forall s: seq<byte> | |s| > LOOKAHEAD
      ensures Next(r, s) == Next(r, s[..LOOKAHEAD])
    {
      var h := s[..LOOKAHEAD];
      NextIs(r, tw, width, eol, dec, s);
      NextIs(r, tw, width, eol, dec, h);
      var g := dec(s);
      assert dec(h) == g && 1 <= g.n <= MAX_CHAR_BYTES;
      var rest := s[g.n..];
      assert h[g.n..] == rest[..LOOKAHEAD - g.n];
      assert dec(rest[..LOOKAHEAD - g.n]) == dec(rest);
    }
  }

  lemma BlankNext(r: Ruler, tw: nat, width: int -> nat, eol: Eol, dec: Decoder, p: seq<byte>)
    requires r == TextRuler(tw, width, eol, dec) && Sized(dec) && StartsBlank(r, p)
    ensures BlankAt(dec, p)
  {
    hide Next;
    NextIs(r, tw, width, eol, dec, p);
  }

  lemma SameIn(eol: Eol, dec: Decoder, u: seq<byte>, p: seq<byte>, q: seq<byte>)
    requires Sized(dec) && StopsAtBlank(dec) && u != [] && BlankAt(dec, p) && BlankAt(dec, q) && WithLineEnds(eol, dec, u + p).n <= |u|
    ensures WithLineEnds(eol, dec, u + q) == WithLineEnds(eol, dec, u + p)
  {
    var g := dec(u + p);
    assert dec(u + q) == g && g.n >= 1;
    if g.n <= |u| {
      var v := u[g.n..];
      assert (u + p)[g.n..] == v + p && (u + q)[g.n..] == v + q;
      if v == [] {
        assert v + p == p && v + q == q;
      } else {
        assert dec(v + p) == dec(v + q);
      }
    }
  }

  lemma StopsIn(r: Ruler, tw: nat, width: int -> nat, eol: Eol, dec: Decoder)
    requires r == TextRuler(tw, width, eol, dec) && Sized(dec) && StopsAtBlank(dec)
    ensures EndsAtBlank(r)
  {
    hide Next, WithLineEnds, StopsAtBlank;
    forall u, p, q | u != [] && StartsBlank(r, p) && StartsBlank(r, q) && Next(r, u + p).n <= |u|
      ensures Next(r, u + q) == Next(r, u + p)
    {
      BlankNext(r, tw, width, eol, dec, p);
      BlankNext(r, tw, width, eol, dec, q);
      NextIs(r, tw, width, eol, dec, u + p);
      NextIs(r, tw, width, eol, dec, u + q);
      SameIn(eol, dec, u, p, q);
    }
  }

  /** Such a decoder is one that tab conversion works with. */
  lemma DecoderFits(tw: nat, width: int -> nat, eol: Eol, dec: Decoder)
    requires tw > 0 && width(SPACE as int) == 1 && CharDecoder(dec)
    ensures RulerOk(TextRuler(tw, width, eol, dec))
  {
    hide BlanksAlone, LooksAhead, EndsAtBlank, Next, Sized, PlainBlanks, Local, StopsAtBlank;
    var r := TextRuler(tw, width, eol, dec);
    AloneIn(r, tw, width, eol, dec);
    LocalIn(r, tw, width, eol, dec);
    StopsIn(r, tw, width, eol, dec);
  }

  /** One byte charsets, whatever the rest of their table. */
  lemma OneByteFits(table: byte -> int)
    requires table(SPACE) == SPACE as int && table(TAB) == TAB as int
    ensures CharDecoder(s => OneByte(table, s))
  {
  }

  lemma {:induction false} TrailsSame(u: seq<byte>, p: seq<byte>, q: seq<byte>, i: nat, n: nat, c: nat)
    requires u != [] && 1 <= i <= |u| && p != [] && q != [] && !Trailing(p[0]) && !Trailing(q[0])
    ensures Trails(u + p, i, n, c) == Trails(u + q, i, n, c)
    decreases n
  {
    if n > 0 && i < |u| && Trailing(u[i]) {
      TrailsSame(u, p, q, i + 1, n - 1, c * 64 + (u[i] - 0x80));
    }
  }

  lemma {:induction false} TrailsLocal(s: seq<byte>, k: nat, i: nat, n: nat, c: nat)
    requires s != [] && 1 <= k <= |s| && i + n <= k
    ensures Trails(s[..k], i, n, c) == Trails(s, i, n, c)
    decreases n
  {
    if n > 0 && Trailing(s[i]) { TrailsLocal(s, k, i + 1, n - 1, c * 64 + (s[i] - 0x80)); }
  }

  lemma LaxBlank(p: seq<byte>)
    requires p != [] && (LaxUtf8(p).c == SPACE || LaxUtf8(p).c == TAB)
    ensures !Trailing(p[0])
  {
  }

  lemma LaxSame(u: seq<byte>, p: seq<byte>, q: seq<byte>)
    requires u != [] && p != [] && q != [] && !Trailing(p[0]) && !Trailing(q[0])
    ensures LaxUtf8(u + p) == LaxUtf8(u + q)
  {
    hide Trails;
    if u[0] >= 0xc0 { TrailsSame(u, p, q, 1, Lead(u[0]) - 1, LeadBits(u[0])); }
  }

  lemma LaxLocal(s: seq<byte>, k: nat)
    requires MAX_CHAR_BYTES <= k <= |s|
    ensures LaxUtf8(s[..k]) == LaxUtf8(s)
  {
    hide Trails;
    if s[0] >= 0xc0 { TrailsLocal(s, k, 1, Lead(s[0]) - 1, LeadBits(s[0])); }
  }

  /** UTF-8, well formed or not. */
  lemma LaxUtf8Fits()
    ensures CharDecoder(LaxUtf8)
  {
    forall s: seq<byte> | s != []
      ensures 1 <= LaxUtf8(s).n <= |s| && LaxUtf8(s).n <= MAX_CHAR_BYTES
      ensures (s[0] == SPACE ==> LaxUtf8(s) == Glyph(SPACE, 1)) && (s[0] == TAB ==> LaxUtf8(s) == Glyph(TAB, 1))
      ensures forall i :: 0 < i < LaxUtf8(s).n && i < |s| ==> s[i] != TAB
    {
      hide Trails, LeadBits;
    }
    hide LaxUtf8;
    forall s: seq<byte>, k | MAX_CHAR_BYTES <= k <= |s| ensures LaxUtf8(s[..k]) == LaxUtf8(s) { LaxLocal(s, k); }
    forall u: seq<byte>, p, q | u != [] && BlankAt(LaxUtf8, p) && BlankAt(LaxUtf8, q) ensures LaxUtf8(u + p) == LaxUtf8(u + q) {
      LaxBlank(p);
      LaxBlank(q);
      LaxSame(u, p, q);
    }
  }
}
