/** The instruction set of libregexp-opcode.h: how an instruction is laid out
    in bytes, how it is fetched back from a code buffer, and where pieces of
    code lie in a larger buffer. Displacements are counted in bytes from the
    end of the instruction that holds them. */
module Bytecode {
  import opened Bytes

  datatype Instr =
    | Char(c: int)
    | Char32(c: int)
    | Dot
    | Any
    | LineStart
    | LineEnd
    | Goto(off: int)
    | SplitGotoFirst(off: int)
    | SplitNextFirst(off: int)
    | Match
    | SaveStart(n: int)
    | SaveEnd(n: int)
    | SaveReset(first: int, last: int)
    | Loop(off: int)
    | PushI32(v: int)
    | Drop
    | WordBoundary
    | NotWordBoundary
    | BackReference(n: int)
    | BackwardBackReference(n: int)
    | Range(pts: seq<int>)
    | Range32(pts: seq<int>)
    | Lookahead(off: int)
    | NegativeLookahead(off: int)
    | PushCharPos
    | BneCharPos(off: int)
    | Prev
    | SimpleGreedyQuant(off: int, qmin: int, qmax: int, count: int)

  datatype Fetched = Bad | Got(i: Instr)

  predicate IsByte(v: int) { 0 <= v < 256 }
  predicate IsDisp(d: int) { -TWO31 <= d < TWO31 }
  predicate IsWord(v: int) { 0 <= v < TWO32 }

  /** The operands fit in their fields. A range list holds inclusive bounds
      low, high, low, high, ... of at least one range. */
  predicate Encodable(i: Instr) {
    match i
    case Char(c) => 0 <= c < TWO16
    case Char32(c) => IsWord(c)
    case Goto(d) => IsDisp(d)
    case SplitGotoFirst(d) => IsDisp(d)
    case SplitNextFirst(d) => IsDisp(d)
    case SaveStart(n) => IsByte(n)
    case SaveEnd(n) => IsByte(n)
    case SaveReset(a, b) => IsByte(a) && IsByte(b)
    case Loop(d) => IsDisp(d)
    case PushI32(v) => IsWord(v)
    case BackReference(n) => IsByte(n)
    case BackwardBackReference(n) => IsByte(n)
    case Range(p) => |p| % 2 == 0 && 2 <= |p| < 2 * TWO16 && forall k :: 0 <= k < |p| ==> 0 <= p[k] < TWO16
    case Range32(p) => |p| % 2 == 0 && 2 <= |p| < 2 * TWO16 && forall k :: 0 <= k < |p| ==> 0 <= p[k] < TWO32
    case Lookahead(d) => IsDisp(d)
    case NegativeLookahead(d) => IsDisp(d)
    case BneCharPos(d) => IsDisp(d)
    case SimpleGreedyQuant(d, a, b, n) => IsDisp(d) && IsWord(a) && IsWord(b) && IsWord(n)
    case _ => true
  }

  function Opcode(i: Instr): byte {
    match i
    case Char(_) => 1 case Char32(_) => 2 case Dot => 3 case Any => 4
    case LineStart => 5 case LineEnd => 6 case Goto(_) => 7
    case SplitGotoFirst(_) => 8 case SplitNextFirst(_) => 9 case Match => 10
    case SaveStart(_) => 11 case SaveEnd(_) => 12 case SaveReset(_, _) => 13
    case Loop(_) => 14 case PushI32(_) => 15 case Drop => 16
    case WordBoundary => 17 case NotWordBoundary => 18
    case BackReference(_) => 19 case BackwardBackReference(_) => 20
    case Range(_) => 21 case Range32(_) => 22
    case Lookahead(_) => 23 case NegativeLookahead(_) => 24
    case PushCharPos => 25 case BneCharPos(_) => 26 case Prev => 27
    case SimpleGreedyQuant(_, _, _, _) => 28
  }

  /** The size column of libregexp-opcode.h, indexed by opcode. */
  function BaseSize(op: byte): (n: nat)
    ensures 1 <= n <= 17
  {
    if op == 1 || op == 13 || op == 21 || op == 22 then 3
    else if op == 2 || 7 <= op <= 9 || op == 14 || op == 15 || op == 23 || op == 24 || op == 26 then 5
    else if op == 11 || op == 12 || op == 19 || op == 20 then 2
    else if op == 28 then 17
    else 1
  }

  function Size(i: Instr): (n: nat)
    ensures n >= 1
  {
    match i
    case Range(p) => 3 + 2 * |p|
    case Range32(p) => 3 + 4 * |p|
    case _ => BaseSize(Opcode(i))
  }

  function U16s(p: seq<int>): (s: seq<byte>)
    requires forall k :: 0 <= k < |p| ==> 0 <= p[k] < TWO16
    ensures |s| == 2 * |p|
  {
    if p == [] then [] else U16s(p[..|p| - 1]) + U16(p[|p| - 1])
  }

  function U32s(p: seq<int>): (s: seq<byte>)
    requires forall k :: 0 <= k < |p| ==> 0 <= p[k] < TWO32
    ensures |s| == 4 * |p|
  {
    if p == [] then [] else U32s(p[..|p| - 1]) + U32(p[|p| - 1])
  }

  function Disp(d: int): (s: seq<byte>)
    ensures |s| == 4
  {
    U32(OfSigned(d))
  }

  function Operands(i: Instr): (s: seq<byte>)
    requires Encodable(i)
    ensures |s| == Size(i) - 1
  {
    match i
    case Char(c) => U16(c)
    case Char32(c) => U32(c)
    case Goto(d) => Disp(d)
    case SplitGotoFirst(d) => Disp(d)
    case SplitNextFirst(d) => Disp(d)
    case SaveStart(n) => [n]
    case SaveEnd(n) => [n]
    case SaveReset(a, b) => [a, b]
    case Loop(d) => Disp(d)
    case PushI32(v) => U32(v)
    case BackReference(n) => [n]
    case BackwardBackReference(n) => [n]
    case Range(p) => U16(|p| / 2) + U16s(p)
    case Range32(p) => U16(|p| / 2) + U32s(p)
    case Lookahead(d) => Disp(d)
    case NegativeLookahead(d) => Disp(d)
    case BneCharPos(d) => Disp(d)
    case SimpleGreedyQuant(d, a, b, n) => Disp(d) + U32(a) + U32(b) + U32(n)
    case _ => []
  }

  function Encode1(i: Instr): (s: seq<byte>)
    requires Encodable(i)
    ensures |s| == Size(i)
  {
    [Opcode(i)] + Operands(i)
  }

  predicate AllEncodable(c: seq<Instr>) {
    forall k :: 0 <= k < |c| ==> Encodable(c[k])
  }

  /** Length in bytes of a list of instructions. */
  function Len(c: seq<Instr>): nat {
    if c == [] then 0 else Size(c[0]) + Len(c[1..])
  }

  function Cells(c: seq<Instr>): (s: seq<seq<byte>>)
    requires AllEncodable(c)
    ensures |s| == |c|
  {
    seq(|c|, k requires 0 <= k < |c| => Encode1(c[k]))
  }

  function Flatten(s: seq<seq<byte>>): seq<byte> {
    if s == [] then [] else s[0] + Flatten(s[1..])
  }

  function Encode(c: seq<Instr>): seq<byte>
    requires AllEncodable(c)
  {
    Flatten(Cells(c))
  }

  function ReadU16s(code: seq<byte>, at: int, n: nat): (p: seq<int>)
    requires 0 <= at && at + 2 * n <= |code|
    ensures |p| == n
  {
    seq(n, k requires 0 <= k < n => GetU16(code, at + 2 * k))
  }

  function ReadU32s(code: seq<byte>, at: int, n: nat): (p: seq<int>)
    requires 0 <= at && at + 4 * n <= |code|
    ensures |p| == n
  {
    seq(n, k requires 0 <= k < n => GetU32(code, at + 4 * k))
  }

  function GetDisp(code: seq<byte>, at: int): int
    requires 0 <= at <= |code| - 4
  {
    Signed(GetU32(code, at))
  }

  /** The instruction at a code address, `Bad` when the bytes there are not an
      instruction. */
  function Fetch(code: seq<byte>, pc: int): Fetched {
    if !(0 <= pc < |code|) || pc + BaseSize(code[pc]) > |code| then Bad
    else
      var op := code[pc];
      var a := pc + 1;
      if op == 1 then Got(Char(GetU16(code, a)))
      else if op == 2 then Got(Char32(GetU32(code, a)))
      else if op == 3 then Got(Dot)
      else if op == 4 then Got(Any)
      else if op == 5 then Got(LineStart)
      else if op == 6 then Got(LineEnd)
      else if op == 7 then Got(Goto(GetDisp(code, a)))
      else if op == 8 then Got(SplitGotoFirst(GetDisp(code, a)))
      else if op == 9 then Got(SplitNextFirst(GetDisp(code, a)))
      else if op == 10 then Got(Match)
      else if op == 11 then Got(SaveStart(code[a]))
      else if op == 12 then Got(SaveEnd(code[a]))
      else if op == 13 then Got(SaveReset(code[a], code[a + 1]))
      else if op == 14 then Got(Loop(GetDisp(code, a)))
      else if op == 15 then Got(PushI32(GetU32(code, a)))
      else if op == 16 then Got(Drop)
      else if op == 17 then Got(WordBoundary)
      else if op == 18 then Got(NotWordBoundary)
      else if op == 19 then Got(BackReference(code[a]))
      else if op == 20 then Got(BackwardBackReference(code[a]))
      else if op == 21 then
        var n := GetU16(code, a);
        if n == 0 || a + 2 + 4 * n > |code| then Bad else Got(Range(ReadU16s(code, a + 2, 2 * n)))
      else if op == 22 then
        var n := GetU16(code, a);
        if n == 0 || a + 2 + 8 * n > |code| then Bad else Got(Range32(ReadU32s(code, a + 2, 2 * n)))
      else if op == 23 then Got(Lookahead(GetDisp(code, a)))
      else if op == 24 then Got(NegativeLookahead(GetDisp(code, a)))
      else if op == 25 then Got(PushCharPos)
      else if op == 26 then Got(BneCharPos(GetDisp(code, a)))
      else if op == 27 then Got(Prev)
      else if op == 28 then
        Got(SimpleGreedyQuant(GetDisp(code, a), GetU32(code, a + 4), GetU32(code, a + 8), GetU32(code, a + 12)))
      else Bad
  }

  /** The bytes `s` lie at `pc`. */
  predicate Lies(code: seq<byte>, pc: int, s: seq<byte>) {
    0 <= pc && pc + |s| <= |code| && code[pc..pc + |s|] == s
  }

  lemma LiesConcat(code: seq<byte>, pc: int, a: seq<byte>, b: seq<byte>)
    requires Lies(code, pc, a + b)
    ensures Lies(code, pc, a) && Lies(code, pc + |a|, b)
  {
    var w := code[pc..pc + |a + b|];
    assert a == w[..|a|] == code[pc..pc + |a|];
    assert b == w[|a|..] == code[pc + |a|..pc + |a| + |b|];
  }

  lemma LiesField32(code: seq<byte>, pc: int, v: int)
    requires 0 <= v < TWO32 && Lies(code, pc, U32(v))
    ensures GetU32(code, pc) == v
  {
    Field32(v, code, pc);
  }

  lemma LiesDisp(code: seq<byte>, pc: int, d: int)
    requires IsDisp(d) && Lies(code, pc, Disp(d))
    ensures GetDisp(code, pc) == d
  {
    Field32(OfSigned(d), code, pc);
    SignedRoundTrip(d);
  }

  lemma {:induction false} ReadBack16(code: seq<byte>, at: int, p: seq<int>)
    requires forall k :: 0 <= k < |p| ==> 0 <= p[k] < TWO16
    requires Lies(code, at, U16s(p))
    ensures ReadU16s(code, at, |p|) == p
  {
    if p != [] {
      var q := p[..|p| - 1];
      LiesConcat(code, at, U16s(q), U16(p[|p| - 1]));
      ReadBack16(code, at, q);
      Field16(p[|p| - 1], code, at + 2 * |q|);
      assert forall k :: 0 <= k < |q| ==> ReadU16s(code, at, |p|)[k] == ReadU16s(code, at, |q|)[k] == p[k];
    }
  }

  lemma {:induction false} ReadBack32(code: seq<byte>, at: int, p: seq<int>)
    requires forall k :: 0 <= k < |p| ==> 0 <= p[k] < TWO32
    requires Lies(code, at, U32s(p))
    ensures ReadU32s(code, at, |p|) == p
  {
    if p != [] {
      var q := p[..|p| - 1];
      LiesConcat(code, at, U32s(q), U32(p[|p| - 1]));
      ReadBack32(code, at, q);
      Field32(p[|p| - 1], code, at + 4 * |q|);
      assert forall k :: 0 <= k < |q| ==> ReadU32s(code, at, |p|)[k] == ReadU32s(code, at, |q|)[k] == p[k];
    }
  }

  lemma LiesHead(code: seq<byte>, pc: int, i: Instr)
    requires Encodable(i) && Lies(code, pc, Encode1(i))
    ensures pc < |code| && code[pc] == Opcode(i) && Lies(code, pc + 1, Operands(i))
  {
    LiesConcat(code, pc, [Opcode(i)], Operands(i));
    assert code[pc..pc + 1][0] == code[pc];
  }

  lemma LiesByte(code: seq<byte>, pc: int, s: seq<byte>, k: nat)
    requires Lies(code, pc, s) && k < |s|
    ensures code[pc + k] == s[k]
  {
    assert code[pc..pc + |s|][k] == code[pc + k];
  }

  predicate HasDisp(i: Instr) {
    i.Goto? || i.SplitGotoFirst? || i.SplitNextFirst? || i.Loop? || i.Lookahead? || i.NegativeLookahead? || i.BneCharPos?
  }

  lemma FetchDisp(code: seq<byte>, pc: int, i: Instr)
    requires HasDisp(i) && Encodable(i) && Lies(code, pc, Encode1(i))
    ensures Fetch(code, pc) == Got(i)
  {
    LiesHead(code, pc, i);
    LiesDisp(code, pc + 1, i.off);
  }

  lemma FetchBytes(code: seq<byte>, pc: int, i: Instr)
    requires i.SaveStart? || i.SaveEnd? || i.SaveReset? || i.BackReference? || i.BackwardBackReference?
    requires Encodable(i) && Lies(code, pc, Encode1(i))
    ensures Fetch(code, pc) == Got(i)
  {
    LiesHead(code, pc, i);
    LiesByte(code, pc + 1, Operands(i), 0);
    if i.SaveReset? { LiesByte(code, pc + 1, Operands(i), 1); }
  }

  lemma FetchRange(code: seq<byte>, pc: int, i: Instr)
    requires i.Range? || i.Range32?
    requires Encodable(i) && Lies(code, pc, Encode1(i))
    ensures Fetch(code, pc) == Got(i)
  {
    LiesHead(code, pc, i);
    var a, n := pc + 1, |i.pts| / 2;
    if i.Range? {
      LiesConcat(code, a, U16(n), U16s(i.pts));
      Field16(n, code, a);
      ReadBack16(code, a + 2, i.pts);
    } else {
      LiesConcat(code, a, U16(n), U32s(i.pts));
      Field16(n, code, a);
      ReadBack32(code, a + 2, i.pts);
    }
  }

  lemma FetchGreedy(code: seq<byte>, pc: int, i: Instr)
    requires i.SimpleGreedyQuant? && Encodable(i) && Lies(code, pc, Encode1(i))
    ensures Fetch(code, pc) == Got(i)
  {
    LiesHead(code, pc, i);
    var a := pc + 1;
    LiesConcat(code, a, Disp(i.off) + U32(i.qmin) + U32(i.qmax), U32(i.count));
    LiesConcat(code, a, Disp(i.off) + U32(i.qmin), U32(i.qmax));
    LiesConcat(code, a, Disp(i.off), U32(i.qmin));
    LiesDisp(code, a, i.off);
    LiesField32(code, a + 4, i.qmin);
    LiesField32(code, a + 8, i.qmax);
    LiesField32(code, a + 12, i.count);
  }

  /** Fetching undoes encoding, for every instruction and wherever it lies. */
  lemma FetchEncoded(code: seq<byte>, pc: int, i: Instr)
    requires Encodable(i) && Lies(code, pc, Encode1(i))
    ensures Fetch(code, pc) == Got(i)
  {
    if HasDisp(i) {
      FetchDisp(code, pc, i);
    } else if i.Range? || i.Range32? {
      FetchRange(code, pc, i);
    } else if i.SimpleGreedyQuant? {
      FetchGreedy(code, pc, i);
    } else if i.SaveStart? || i.SaveEnd? || i.SaveReset? || i.BackReference? || i.BackwardBackReference? {
      FetchBytes(code, pc, i);
    } else {
      LiesHead(code, pc, i);
      if i.Char? { Field16(i.c, code, pc + 1); }
      if i.Char32? { LiesField32(code, pc + 1, i.c); }
      if i.PushI32? { LiesField32(code, pc + 1, i.v); }
    }
  }

  lemma {:induction false} LenConcat(a: seq<Instr>, b: seq<Instr>)
    ensures Len(a + b) == Len(a) + Len(b)
  {
    if a == [] {
      assert a + b == b;
    } else {
      assert (a + b)[1..] == a[1..] + b;
      LenConcat(a[1..], b);
    }
  }

  lemma EncodableConcat(a: seq<Instr>, b: seq<Instr>)
    ensures AllEncodable(a + b) <==> AllEncodable(a) && AllEncodable(b)
  {
    if AllEncodable(a + b) {
      forall k | 0 <= k < |a| ensures Encodable(a[k]) { assert a[k] == (a + b)[k]; }
      forall k | 0 <= k < |b| ensures Encodable(b[k]) { assert b[k] == (a + b)[|a| + k]; }
    }
  }

  lemma {:induction false} FlattenConcat(a: seq<seq<byte>>, b: seq<seq<byte>>)
    ensures Flatten(a + b) == Flatten(a) + Flatten(b)
  {
    if a == [] {
      assert a + b == b;
    } else {
      assert (a + b)[1..] == a[1..] + b;
      FlattenConcat(a[1..], b);
    }
  }

  lemma EncodeConcat(a: seq<Instr>, b: seq<Instr>)
    requires AllEncodable(a) && AllEncodable(b)
    ensures AllEncodable(a + b)
    ensures Encode(a + b) == Encode(a) + Encode(b)
  {
    EncodableConcat(a, b);
    assert Cells(a + b) == Cells(a) + Cells(b);
    FlattenConcat(Cells(a), Cells(b));
  }

  lemma Encode1Is(i: Instr)
    requires Encodable(i)
    ensures Encode([i]) == Encode1(i)
  {
    var s := Cells([i]);
    assert s[0] == Encode1(i) && s[1..] == [];
    assert Flatten(s) == s[0] + Flatten([]) == s[0];
  }

  lemma {:induction false} EncodeLen(c: seq<Instr>)
    requires AllEncodable(c)
    ensures |Encode(c)| == Len(c)
  {
    if c != [] {
      var head, rest := [c[0]], c[1..];
      assert c == head + rest;
      EncodableConcat(head, rest);
      EncodeConcat(head, rest);
      Encode1Is(c[0]);
      EncodeLen(rest);
    }
  }

  lemma Len1(i: Instr)
    ensures Len([i]) == Size(i)
  {
    assert [i][1..] == [];
  }

  /** Code as the machine sees it: what is fetched at each address. */
  datatype Code = Code(len: int, fetch: int -> Fetched)

  function Load(bytes: seq<byte>): Code {
    Code(|bytes|, pc => Fetch(bytes, pc))
  }

  /** The instructions `c` are fetched one after the other from `pc` on. */
  predicate At(code: Code, pc: int, c: seq<Instr>)
    decreases |c|
  {
    c != [] ==> pc < code.len && code.fetch(pc) == Got(c[0]) && At(code, pc + Size(c[0]), c[1..])
  }

  /** Encoded instructions are fetched back, wherever they lie. */
  lemma {:induction false} AtStored(bytes: seq<byte>, pc: int, c: seq<Instr>)
    requires AllEncodable(c) && Lies(bytes, pc, Encode(c))
    ensures At(Load(bytes), pc, c)
    decreases |c|
  {
    hide Encode, Encode1, Encodable, Fetch, Lies;
    if c != [] {
      var head, rest := [c[0]], c[1..];
      assert c == head + rest;
      EncodableConcat(head, rest);
      EncodeConcat(head, rest);
      assert head[0] == c[0];
      Encode1Is(c[0]);
      LiesConcat(bytes, pc, Encode1(c[0]), Encode(rest));
      FetchEncoded(bytes, pc, c[0]);
      AtStored(bytes, pc + Size(c[0]), rest);
    }
  }

  /** Code at an address splits into its parts. */
  lemma {:induction false} AtConcat(code: Code, pc: int, a: seq<Instr>, b: seq<Instr>)
    requires At(code, pc, a + b)
    ensures At(code, pc, a) && At(code, pc + Len(a), b)
    ensures Len(a + b) == Len(a) + Len(b)
    decreases |a|
  {
    if a == [] {
      assert a + b == b;
    } else {
      assert (a + b)[0] == a[0] && (a + b)[1..] == a[1..] + b;
      AtConcat(code, pc + Size(a[0]), a[1..], b);
    }
  }

  lemma AtCons(code: Code, pc: int, i: Instr, rest: seq<Instr>)
    requires At(code, pc, [i] + rest)
    ensures pc < code.len && code.fetch(pc) == Got(i) && At(code, pc + Size(i), rest)
    ensures Len([i] + rest) == Size(i) + Len(rest)
  {
    assert ([i] + rest)[0] == i && ([i] + rest)[1..] == rest;
  }
}
