/** The UTF-8 codec of cutils.c, with forms of up to six bytes (section 2 of
    RFC 2279). */
module Utf8 {
  import opened Bytes

  datatype Decoded = Error | Char(code: int, used: nat)

  function Pow64(n: nat): (p: nat)
    ensures p > 0
  {
    if n == 0 then 1 else 64 * Pow64(n - 1)
  }

  /** The smallest code with n trailing bytes. */
  function Smallest(n: nat): int
    requires n <= 6
  {
    match n case 0 => 0 case 1 => 0x80 case 2 => 0x800 case 3 => 0x1_0000 case 4 => 0x20_0000 case 5 => 0x400_0000 case _ => TWO31
  }

  /** The number of trailing bytes of a code. */
  function Extra(c: int): (n: nat)
    requires 0 <= c < TWO31
    ensures n <= 5 && Smallest(n) <= c < Smallest(n + 1)
  {
    if c < 0x80 then 0 else if c < 0x800 then 1 else if c < 0x1_0000 then 2 else if c < 0x20_0000 then 3 else if c < 0x400_0000 then 4 else 5
  }

  /** The bits of the first byte that tell the number of trailing bytes. */
  function Mark(n: nat): int
    requires n <= 5
  {
    match n case 0 => 0 case 1 => 0xc0 case 2 => 0xe0 case 3 => 0xf0 case 4 => 0xf8 case _ => 0xfc
  }

  /** n trailing bytes with six bits each. */
  function Trail(c: nat, n: nat): (s: seq<byte>)
    ensures |s| == n
  {
    if n == 0 then [] else [0x80 + c / Pow64(n - 1) % 64] + Trail(c, n - 1)
  }

  /** The encoding of a code. */
  function Encode(c: int): (s: seq<byte>)
    requires 0 <= c < TWO31
    ensures |s| == 1 + Extra(c)
  {
    var n := Extra(c);
    LeadByte(c);
    [Mark(n) + c / Pow64(n)] + Trail(c, n)
  }

  lemma Powers()
    ensures Pow64(0) == 1 && Pow64(1) == 64 && Pow64(2) == 0x1000 && Pow64(3) == 0x4_0000 && Pow64(4) == 0x100_0000 && Pow64(5) == 0x4000_0000
  {
    assert Pow64(2) == 64 * Pow64(1);
    assert Pow64(4) == 64 * Pow64(3);
  }

  lemma LeadByte(c: int)
    requires 0 <= c < TWO31
    ensures var n := Extra(c);
      0 <= Mark(n) + c / Pow64(n) < 256 && (n > 0 ==> Mark(n) + c / Pow64(n) < if n == 5 then 0xfe else Mark(n + 1))
  {
    Powers();
  }

  /** unicode_to_utf8: nothing for a code of more than 31 bits. */
  method ToUtf8(c: int) returns (q: seq<byte>)
    requires 0 <= c < TWO32
    ensures q == if c < TWO31 then Encode(c) else []
  {
    Powers();
    if c < 0x80 {
      q := [c];
    } else {
      if c < 0x800 {
        q := [c / 64 + 0xc0];
      } else {
        if c < 0x1_0000 {
          q := [c / 0x1000 + 0xe0];
        } else {
          if c < 0x20_0000 {
            q := [c / 0x4_0000 + 0xf0];
          } else {
            if c < 0x400_0000 {
              q := [c / 0x100_0000 + 0xf8];
            } else if c < TWO31 {
              q := [c / 0x4000_0000 + 0xfc];
              q := q + [c / 0x100_0000 % 64 + 0x80];
            } else {
              return [];
            }
            q := q + [c / 0x4_0000 % 64 + 0x80];
          }
          q := q + [c / 0x1000 % 64 + 0x80];
        }
        q := q + [c / 64 % 64 + 0x80];
      }
      q := q + [c % 64 + 0x80];
    }
    if c < TWO31 { EncodeIs(c); }
  }

  lemma EncodeIs(c: int)
    requires 0 <= c < TWO31
    ensures var t1, t2, t3, t4, t5 := [c % 64 + 0x80], [c / 64 % 64 + 0x80], [c / 0x1000 % 64 + 0x80], [c / 0x4_0000 % 64 + 0x80], [c / 0x100_0000 % 64 + 0x80];
      Encode(c) ==
        if c < 0x80 then [c]
        else if c < 0x800 then [c / 64 + 0xc0] + t1
        else if c < 0x1_0000 then [c / 0x1000 + 0xe0] + t2 + t1
        else if c < 0x20_0000 then [c / 0x4_0000 + 0xf0] + t3 + t2 + t1
        else if c < 0x400_0000 then [c / 0x100_0000 + 0xf8] + t4 + t3 + t2 + t1
        else [c / 0x4000_0000 + 0xfc] + t5 + t4 + t3 + t2 + t1
  {
    hide Pow64;
    Powers();
    TrailStep(c, 0);
    TrailStep(c, 1);
    TrailStep(c, 2);
    TrailStep(c, 3);
    TrailStep(c, 4);
    assert Trail(c, 0) == [];
  }

  lemma TrailStep(c: nat, n: nat)
    ensures Trail(c, n + 1) == [0x80 + c / Pow64(n) % 64] + Trail(c, n)
  {
  }

  // Decoding

  /** b ^ 0x80: less than 0x40 for trailing bytes only. */
  function Flip(b: byte): int { if b < 0x80 then b + 0x80 else b - 0x80 }

  function Pow2(n: nat): int
    requires n <= 4
  {
    match n case 0 => 1 case 1 => 2 case 2 => 4 case 3 => 8 case _ => 16
  }

  /** c & (0x1f >> n), and 0x40 >> n. */
  function Payload(c: nat, n: nat): nat
    requires n <= 4
  {
    c % (32 / Pow2(n))
  }

  function Least(n: nat): nat
    requires n <= 4
  {
    64 / Pow2(n)
  }

  /** The last loop of unicode_from_utf8: n more trailing bytes. */
  function Rest(s: seq<byte>, i: nat, n: nat, c: nat): Decoded
    requires i + n <= |s|
    decreases n
  {
    if n == 0 then Char(c, i)
    else if Flip(s[i]) >= 0x40 then Error
    else Rest(s, i + 1, n - 1, c * 64 + Flip(s[i]))
  }

  /** What the decoder makes of the first bytes of s. */
  function Decode(s: seq<byte>): Decoded
    requires |s| >= 1
  {
    var c: int := s[0];
    if c < 0x80 then Char(c, 1)
    else if c < 0xc2 || c >= 0xfe then Error
    else if c < 0xe0 then
      if |s| < 2 || Flip(s[1]) >= 0x40 then Error else Char(c % 32 * 64 + Flip(s[1]), 2)
    else
      var n := if c < 0xf0 then 1 else if c < 0xf8 then 2 else if c < 0xfc then 3 else 4;
      if |s| < n + 2 || Flip(s[1]) >= 0x40 then Error
      else
        var c1 := Payload(c, n) * 64 + Flip(s[1]);
        if c1 < Least(n) then Error else Rest(s, 2, n, c1)
  }

  /** unicode_from_utf8 with max_len == |s|. */
  method FromUtf8(s: seq<byte>) returns (r: Decoded)
    requires |s| >= 1
    ensures r == Decode(s)
  {
    var c: int := s[0];
    if c < 0x80 { return Char(c, 1); }
    var n: nat;
    if c < 0xc2 {
      return Error;
    } else if c < 0xe0 {
      if |s| < 2 { return Error; }
      var b := Flip(s[1]);
      if b >= 0x40 { return Error; }
      return Char(c % 32 * 64 + b, 2);
    } else if c < 0xf0 {
      n := 1;
    } else if c < 0xf8 {
      n := 2;
    } else if c < 0xfc {
      n := 3;
    } else if c < 0xfe {
      n := 4;
    } else {
      return Error;
    }
    if |s| < n + 2 { return Error; }
    var b := Flip(s[1]);
    if b >= 0x40 { return Error; }
    c := Payload(c, n) * 64 + b;
    if c < Least(n) { return Error; }
    var p := 2;
    while n > 0
      invariant 2 <= p && p + n <= |s| && c >= 0 && Decode(s) == Rest(s, p, n, c)
      decreases n
    {
      b := Flip(s[p]);
      p := p + 1;
      if b >= 0x40 { return Error; }
      c, n := c * 64 + b, n - 1;
    }
    r := Char(c, p);
  }

  lemma DivideTwice(c: nat, n: nat)
    requires n <= 4
    ensures c / Pow64(n + 1) == c / Pow64(n) / 64
  {
    Powers();
    match n
    case 0 => assert c / 64 == c / 1 / 64;
    case 1 => assert c / 0x1000 == c / 64 / 64;
    case 2 => assert c / 0x4_0000 == c / 0x1000 / 64;
    case 3 => assert c / 0x100_0000 == c / 0x4_0000 / 64;
    case _ => assert c / 0x4000_0000 == c / 0x100_0000 / 64;
  }

  /** The trailing bytes that the loop accepts are those of its result. */
  lemma {:induction false} RestSound(s: seq<byte>, i: nat, n: nat, c: nat)
    requires i + n <= |s| && n <= 5 && Rest(s, i, n, c).Char?
    ensures var r := Rest(s, i, n, c);
      r.used == i + n && r.code >= 0 && r.code / Pow64(n) == c && s[i..i + n] == Trail(r.code, n)
    decreases n
  {
    hide Pow64, Trail;
    TrailNone(if n == 0 then c else 0);
    if n > 0 {
      RestSound(s, i + 1, n - 1, c * 64 + Flip(s[i]));
      var r := Rest(s, i, n, c);
      DivideTwice(r.code, n - 1);
      TrailStep(r.code, n - 1);
      assert s[i..i + n] == [s[i]] + s[i + 1..i + n];
    }
  }

  lemma {:induction false} RestComplete(s: seq<byte>, i: nat, n: nat, c: nat, code: nat)
    requires i + n <= |s| && n <= 5 && s[i..i + n] == Trail(code, n) && code / Pow64(n) == c
    ensures Rest(s, i, n, c) == Char(code, i + n)
    decreases n
  {
    hide Pow64, Trail;
    if n > 0 {
      DivideTwice(code, n - 1);
      TrailStep(code, n - 1);
      var t := s[i..i + n];
      assert t[0] == s[i] && t[1..] == s[i + 1..i + n];
      RestComplete(s, i + 1, n - 1, c * 64 + Flip(s[i]), code);
    } else {
      TrailNone(code);
    }
  }

  lemma TrailNone(c: nat)
    ensures Trail(c, 0) == [] && Pow64(0) == 1
  {
  }

  /** What is accepted is the encoding of the result: no form is too long. */
  lemma DecodeSound(s: seq<byte>)
    requires |s| >= 1 && Decode(s).Char?
    ensures var r := Decode(s);
      0 <= r.code < TWO31 && r.used <= |s| && s[..r.used] == Encode(r.code)
  {
    var c: int := s[0];
    Powers();
    if c < 0x80 {
      assert Encode(c) == [c];
    } else if c < 0xe0 {
      var v := c % 32 * 64 + Flip(s[1]);
      TrailStep(v, 0);
      assert Trail(v, 0) == [];
      assert s[..2] == [s[0]] + [s[1]];
    } else {
      var n := if c < 0xf0 then 1 else if c < 0xf8 then 2 else if c < 0xfc then 3 else 4;
      var c1 := Payload(c, n) * 64 + Flip(s[1]);
      LongSound(s, n, c1);
    }
  }

  lemma LongSound(s: seq<byte>, n: nat, c1: nat)
    requires 1 <= n <= 4 && |s| >= n + 2 && Mark(n + 1) <= s[0] < (if n == 4 then 0xfe else Mark(n + 2)) && Flip(s[1]) < 0x40
    requires c1 == Payload(s[0], n) * 64 + Flip(s[1]) && c1 >= Least(n) && Rest(s, 2, n, c1).Char?
    ensures var r := Rest(s, 2, n, c1);
      0 <= r.code < TWO31 && r.used <= |s| && s[..r.used] == Encode(r.code)
  {
    hide Rest, Trail, Pow64, Mark, Payload, Least, Extra;
    RestSound(s, 2, n, c1);
    var v := Rest(s, 2, n, c1).code;
    LeadBits(v, n, c1, s[0], Flip(s[1]));
    TrailStep(v, n);
    assert s[..n + 2] == [s[0]] + ([s[1]] + s[2..n + 2]);
  }

  lemma LeadBits(v: nat, n: nat, c1: nat, lead: nat, b: int)
    requires 1 <= n <= 4 && Mark(n + 1) <= lead < (if n == 4 then 0xfe else Mark(n + 2)) && 0 <= b < 64
    requires c1 == Payload(lead, n) * 64 + b && c1 >= Least(n) && v / Pow64(n) == c1
    ensures v < TWO31 && Extra(v) == n + 1 && lead == Mark(n + 1) + v / Pow64(n + 1) && b == v / Pow64(n) % 64
  {
    hide Pow64, Extra;
    DivideTwice(v, n);
    var top := Payload(lead, n);
    assert c1 / 64 == top && c1 % 64 == b;
    LeadIs(lead, n);
    CodeRange(v, n, c1);
  }

  lemma LeadIs(lead: nat, n: nat)
    requires 1 <= n <= 4 && Mark(n + 1) <= lead < (if n == 4 then 0xfe else Mark(n + 2))
    ensures lead == Mark(n + 1) + Payload(lead, n) && Payload(lead, n) < 32 / Pow2(n)
  {
  }

  /** The first twelve bits decide the length. */
  lemma CodeRange(v: nat, n: nat, c1: nat)
    requires 1 <= n <= 4 && v / Pow64(n) == c1 && Least(n) <= c1 < 32 / Pow2(n) * 64
    ensures v < TWO31 && Extra(v) == n + 1
  {
    Powers();
  }

  /** The encoding of a code is decoded to it, whatever follows. */
  lemma DecodeComplete(c: int, s: seq<byte>)
    requires 0 <= c < TWO31 && |Encode(c)| <= |s| && s[..|Encode(c)|] == Encode(c)
    ensures Decode(s) == Char(c, |Encode(c)|)
  {
    Powers();
    var n := Extra(c);
    LeadByte(c);
    assert s[0] == s[..n + 1][0];
    if n == 1 {
      TrailStep(c, 0);
      assert s[1] == s[..2][1];
    } else if n > 1 {
      LongComplete(c, s);
    }
  }

  lemma LongComplete(c: int, s: seq<byte>)
    requires 0 <= c < TWO31 && Extra(c) >= 2 && |Encode(c)| <= |s| && s[..|Encode(c)|] == Encode(c)
    ensures Decode(s) == Char(c, |Encode(c)|)
  {
    hide Rest, Trail, Pow64, Extra, Mark, Payload, Least;
    var n := Extra(c) - 1;
    BitsOfLead(c, n);
    FirstBytes(c, n, s);
    RestComplete(s, 2, n, c / Pow64(n), c);
    assert Flip(s[1]) == c / Pow64(n) % 64;
  }

  lemma FirstBytes(c: int, n: nat, s: seq<byte>)
    requires 0 <= c < TWO31 && Extra(c) == n + 1 && n + 2 <= |s| && s[..n + 2] == Encode(c)
    ensures s[0] == Mark(n + 1) + c / Pow64(n + 1) && s[1] == 0x80 + c / Pow64(n) % 64 && s[2..2 + n] == Trail(c, n)
  {
    hide Trail, Pow64, Extra, Mark;
    TrailStep(c, n);
    var t := s[..n + 2];
    assert s[0] == t[0] && s[1] == t[1] && s[2..2 + n] == t[2..];
    assert t[1..] == Trail(c, n + 1);
    assert t[2..] == t[1..][1..];
  }

  lemma BitsOfLead(c: int, n: nat)
    requires 0 <= c < TWO31 && Extra(c) == n + 1 && n >= 1
    ensures n <= 4
    ensures var lead := Mark(n + 1) + c / Pow64(n + 1);
      && lead >= 0xe0 && lead < 0xfe
      && n == (if lead < 0xf0 then 1 else if lead < 0xf8 then 2 else if lead < 0xfc then 3 else 4)
      && Payload(lead, n) * 64 + c / Pow64(n) % 64 == c / Pow64(n) && c / Pow64(n) >= Least(n)
  {
    hide Pow64, Mark, Payload, Least;
    DivideTwice(c, n);
    TopBits(c, n);
    PayloadOf(c / Pow64(n + 1), n);
  }

  lemma TopBits(c: int, n: nat)
    requires 0 <= c < TWO31 && Extra(c) == n + 1 && n >= 1
    ensures n <= 4 && Least(n) <= c / Pow64(n) < 64 * (32 / Pow2(n))
  {
    hide Pow64;
    Powers();
  }

  lemma PayloadOf(y: nat, n: nat)
    requires 1 <= n <= 4 && y < 32 / Pow2(n)
    ensures var lead := Mark(n + 1) + y;
      && 0xe0 <= lead < 0xfe && Payload(lead, n) == y
      && n == (if lead < 0xf0 then 1 else if lead < 0xf8 then 2 else if lead < 0xfc then 3 else 4)
  {
  }

  // Sequences

  function EncodeAll(cs: seq<int>): (s: seq<byte>)
    requires forall i :: 0 <= i < |cs| ==> 0 <= cs[i] < TWO31
  {
    if cs == [] then [] else Encode(cs[0]) + EncodeAll(cs[1..])
  }

  datatype Text = Malformed | Codes(codes: seq<int>)

  /** Decode one code after the other to the end. */
  function DecodeAll(s: seq<byte>): Text
    decreases |s|
  {
    if s == [] then Codes([])
    else
      match Decode(s)
      case Error => Malformed
      case Char(c, n) =>
        Progress(s);
        match DecodeAll(s[n..])
        case Malformed => Malformed
        case Codes(cs) => Codes([c] + cs)
  }

  lemma Progress(s: seq<byte>)
    requires |s| >= 1 && Decode(s).Char?
    ensures 1 <= Decode(s).used <= |s|
  {
    hide Decode, Encode;
    DecodeSound(s);
  }

  /** Any text survives the way to bytes and back. */
  lemma {:induction false} TextRoundTrip(cs: seq<int>)
    requires forall i :: 0 <= i < |cs| ==> 0 <= cs[i] < TWO31
    ensures DecodeAll(EncodeAll(cs)) == Codes(cs)
  {
    if cs != [] {
      hide Decode, Encode;
      var s, e := EncodeAll(cs), Encode(cs[0]);
      assert s[..|e|] == e && s[|e|..] == EncodeAll(cs[1..]);
      DecodeComplete(cs[0], s);
      TextRoundTrip(cs[1..]);
      assert [cs[0]] + cs[1..] == cs;
    }
  }

  /** Any bytes that decode are the encoding of what they decode to. */
  lemma {:induction false} BytesRoundTrip(s: seq<byte>)
    requires DecodeAll(s).Codes?
    ensures var cs := DecodeAll(s).codes;
      (forall i :: 0 <= i < |cs| ==> 0 <= cs[i] < TWO31) && EncodeAll(cs) == s
    decreases |s|
  {
    if s != [] {
      hide Decode, Encode;
      var d := Decode(s);
      DecodeSound(s);
      Progress(s);
      BytesRoundTrip(s[d.used..]);
      var cs := DecodeAll(s).codes;
      assert cs[1..] == DecodeAll(s[d.used..]).codes;
      assert s == s[..d.used] + s[d.used..];
    }
  }
}
