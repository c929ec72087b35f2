/** Growable byte buffers (DynBuf of cutils.c). */
module DynamicBuffer {
  import opened Bytes

  lemma Shifted(before: seq<byte>, moved: seq<byte>, start: nat, mid: nat, n: nat)
    requires start <= mid <= |before| && n == |before| - mid && |moved| == |before| + n
    requires moved[..start] == before[..start] && moved[start + n..] == before[start..]
    ensures moved[|before|..|before| + n] == before[mid..]
    ensures moved[start + n..|before|] == before[start..mid]
  {
    var up, from := moved[start + n..], before[start..];
    assert moved[|before|..|before| + n] == up[mid - start..] == from[mid - start..] == before[mid..];
    assert moved[start + n..|before|] == up[..mid - start] == from[..mid - start] == before[start..mid];
  }

  class DynBuf {
    var buf: array<byte>
    var size: nat

    ghost predicate Valid() reads this { size <= buf.Length }

    function Contents(): (s: seq<byte>)
      reads this, buf
      requires Valid()
      ensures |s| == size
    {
      buf[..size]
    }

    constructor ()
      ensures Valid() && Contents() == [] && fresh(buf)
    {
      buf := new byte[0];
      size := 0;
    }

    /** dbuf_realloc: at least `newSize` bytes, growing by half. */
    method Realloc(newSize: nat)
      requires Valid()
      modifies this`buf
      ensures Valid() && newSize <= buf.Length && Contents() == old(Contents())
      ensures buf == old(buf) || fresh(buf)
    {
      var capacity := buf.Length;
      if newSize > capacity {
        var grown := capacity + capacity / 2;
        var target := if newSize < grown then grown else newSize;
        var bigger := new byte[target];
        for i := 0 to size
          modifies bigger
          invariant forall k :: 0 <= k < i ==> bigger[k] == buf[k]
        {
          bigger[i] := buf[i];
        }
        buf := bigger;
      }
    }

    /** Copy `s` into the buffer at `pos`, inside its size. */
    method Store(pos: nat, s: seq<byte>)
      requires Valid() && pos + |s| <= size
      modifies buf
      ensures Valid() && Contents() == old(Contents())[..pos] + s + old(Contents())[pos + |s|..]
    {
      for i := 0 to |s|
        invariant forall k :: 0 <= k < i ==> buf[pos + k] == s[k]
        invariant forall k :: 0 <= k < buf.Length && !(pos <= k < pos + i) ==> buf[k] == old(buf[k])
      {
        buf[pos + i] := s[i];
      }
      assert forall k :: pos <= k < pos + |s| ==> buf[k] == s[k - pos];
    }

    /** dbuf_put. */
    method Put(s: seq<byte>)
      requires Valid()
      modifies this, buf
      ensures Valid() && Contents() == old(Contents()) + s
      ensures buf == old(buf) || fresh(buf)
    {
      ghost var before := Contents();
      Realloc(size + |s|);
      var at := size;
      size := size + |s|;
      Store(at, s);
      assert Contents()[..at] == before;
    }

    /** dbuf_put_self. */
    method PutSelf(offset: nat, len: nat)
      requires Valid() && offset + len <= size
      modifies this, buf
      ensures Valid() && Contents() == old(Contents()) + old(Contents())[offset..offset + len]
      ensures buf == old(buf) || fresh(buf)
    {
      ghost var before := Contents();
      Realloc(size + len);
      assert forall k :: 0 <= k < size ==> buf[k] == before[k];
      for i := 0 to len
        modifies buf
        invariant forall k :: 0 <= k < size ==> buf[k] == before[k]
        invariant forall k :: size <= k < size + i ==> buf[k] == before[k - size + offset]
      {
        buf[size + i] := buf[offset + i];
      }
      size := size + len;
    }

    /** dbuf_insert: make room for `len` bytes at `pos` by moving the rest up. */
    method Insert(pos: nat, len: nat)
      requires Valid() && pos <= size
      modifies this, buf
      ensures Valid() && size == old(size) + len
      ensures Contents()[..pos] == old(Contents())[..pos] && Contents()[pos + len..] == old(Contents())[pos..]
      ensures buf == old(buf) || fresh(buf)
    {
      ghost var before := Contents();
      Realloc(size + len);
      assert forall k :: 0 <= k < size ==> buf[k] == before[k];
      var i := size;
      while i > pos
        modifies buf
        invariant pos <= i <= size
        invariant forall k :: 0 <= k < i ==> buf[k] == before[k]
        invariant forall k :: i + len <= k < size + len ==> buf[k] == before[k - len]
      {
        i := i - 1;
        buf[i + len] := buf[i];
      }
      size := size + len;
    }

    method Truncate(n: nat)
      requires Valid() && n <= size
      modifies this`size
      ensures Valid() && Contents() == old(Contents())[..n]
    {
      size := n;
    }

    /** Insert the bytes `s` at `pos`. */
    method InsertBytes(pos: nat, s: seq<byte>)
      requires Valid() && pos <= size
      modifies this, buf
      ensures Valid() && Contents() == old(Contents())[..pos] + s + old(Contents())[pos..]
      ensures buf == old(buf) || fresh(buf)
    {
      ghost var before := Contents();
      Insert(pos, |s|);
      ghost var mid := Contents();
      Store(pos, s);
      assert mid[..pos] == before[..pos] && mid[pos + |s|..] == before[pos..];
    }

    /** Exchange the adjacent blocks start .. mid and mid .. end of the buffer, as
        re_parse_alternative does: open a gap of the size of the second block
        beyond the end by moving everything up, then copy the second block down. */
    method Rotate(start: nat, mid: nat)
      requires Valid() && start <= mid <= size
      modifies this, buf
      ensures Valid()
      ensures Contents() == old(Contents())[..start] + old(Contents())[mid..] + old(Contents())[start..mid]
      ensures buf == old(buf) || fresh(buf)
    {
      ghost var before := Contents();
      var end, n := size, size - mid;
      Insert(start, n);
      ghost var moved := Contents();
      Shifted(before, moved, start, mid, n);
      var term := buf[end..end + n];
      assert term == moved[end..end + n];
      Store(start, term);
      Truncate(end);
    }
  }
}

/** When emitted code fits its encoding. */
module RegexEncodable {
  import opened Bytes
  import opened RegexSyntax
  import opened Bytecode
  import opened RegexEmit
  import opened RegexCorrectness

  /** The limits that re_parse_term and re_emit_range check. */
  predicate Compilable(r: Node, cc: nat) {
    match r
    case Class(points) => |points| / 2 < 65535
    case Cat(a, b) => Compilable(a, cc) && Compilable(b, cc + NCaps(a))
    case Alt(a, b) => Compilable(a, cc) && Compilable(b, cc + NCaps(a))
    case Group(b) => cc < CAPTURE_COUNT_MAX && Compilable(b, cc + 1)
    case Look(_, _, b) => Compilable(b, cc)
    case Quant(b, _, _, _) => Compilable(b, cc)
    case _ => true
  }

  /** Sizes of emitted code are `int` values, for the pattern and its parts. */
  predicate SizesFit(e: Env, r: Node, back: bool, cc: nat)
    decreases r
  {
    && Len(Emit(e, r, back, cc)) < TWO31 - 32
    && match r
       case Cat(a, b) => SizesFit(e, a, back, cc) && SizesFit(e, b, back, cc + NCaps(a))
       case Alt(a, b) => SizesFit(e, a, back, cc) && SizesFit(e, b, back, cc + NCaps(a))
       case Group(b) => SizesFit(e, b, back, cc + 1)
       case Look(_, behind, b) => SizesFit(e, b, behind, cc)
       case Quant(b, _, _, _) => SizesFit(e, b, back, cc)
       case _ => true
  }

  lemma {:induction false} CapturesFit(r: Node, cc: nat)
    requires Compilable(r, cc) && cc <= CAPTURE_COUNT_MAX
    ensures cc + NCaps(r) <= CAPTURE_COUNT_MAX
    decreases r
  {
    match r
    case Cat(a, b) => CapturesFit(a, cc); CapturesFit(b, cc + NCaps(a));
    case Alt(a, b) => CapturesFit(a, cc); CapturesFit(b, cc + NCaps(a));
    case Group(b) => CapturesFit(b, cc + 1);
    case Look(_, _, b) => CapturesFit(b, cc);
    case Quant(b, _, _, _) => CapturesFit(b, cc);
    case _ =>
  }

  lemma EncodableOne(i: Instr)
    requires Encodable(i)
    ensures AllEncodable([i])
  {
  }

  lemma Encodable3(a: seq<Instr>, b: seq<Instr>, c: seq<Instr>)
    requires AllEncodable(a) && AllEncodable(b) && AllEncodable(c)
    ensures AllEncodable(a + b + c)
  {
    EncodableConcat(a, b);
    EncodableConcat(a + b, c);
  }

  lemma FrameEncodable(n: int, greedy: bool, k: int)
    requires 0 <= n < TWO31 - 32 && 0 <= k <= INF
    ensures AllEncodable([Split(greedy, n + 6), PushCharPos]) && AllEncodable([BneCharPos(-(n + 11))])
    ensures AllEncodable([Split(greedy, n + 5)]) && AllEncodable([Goto(-(n + 10))])
    ensures AllEncodable([PushI32(k), Split(greedy, n + 5)]) && AllEncodable([Loop(-(n + 10)), Drop])
    ensures AllEncodable([PushI32(k)]) && AllEncodable([Loop(-(n + 5)), Drop])
  {
  }

  lemma LoopsEncodable(c: seq<Instr>, greedy: bool, check: bool, k: int)
    requires AllEncodable(c) && Len(c) < TWO31 - 32 && 0 <= k <= INF
    ensures AllEncodable(StarCode(c, greedy, check)) && AllEncodable(UpToCode(c, greedy, k)) && AllEncodable(ExactCode(c, k))
  {
    hide Len, AllEncodable;
    var n: int := Len(c);
    FrameEncodable(n, greedy, k);
    if check { Encodable3([Split(greedy, n + 6), PushCharPos], c, [BneCharPos(-(n + 11))]); }
    else { Encodable3([Split(greedy, n + 5)], c, [Goto(-(n + 10))]); }
    Encodable3([PushI32(k), Split(greedy, n + 5)], c, [Loop(-(n + 10)), Drop]);
    Encodable3([PushI32(k)], c, [Loop(-(n + 5)), Drop]);
  }

  lemma RepEncodable(c: seq<Instr>, min: int, max: int, greedy: bool)
    requires AllEncodable(c) && Len(c) < TWO31 - 32 && 0 <= min <= max <= INF && SimpleCount(c) < TWO31
    ensures AllEncodable(RepCode(c, min, max, greedy))
  {
    hide Len, AllEncodable, StarCode, UpToCode, ExactCode, SimpleCount, NeedsCheck;
    var n: int := Len(c);
    var check := NeedsCheck(c, greedy);
    LoopsEncodable(c, greedy, check, max);
    LoopsEncodable(c, greedy, check, min);
    LoopsEncodable(c, greedy, check, max - min);
    if UsesGreedyOp(c, max, greedy) {
      var i := SimpleGreedyQuant(n + 1, min, max, SimpleCount(c));
      EncodableOne(i);
      EncodableOne(Match);
      EncodableConcat(c, [Match]);
      EncodableConcat([i], c + [Match]);
    } else if min == 0 {
      if max == 0 { EncodableNil(); }
      EncodableOne(Split(greedy, n));
      EncodableConcat([Split(greedy, n)], c);
    } else {
      EncodableOne(Split(!greedy, -(n + 5)));
      EncodableConcat(c, [Split(!greedy, -(n + 5))]);
      EncodableConcat(ExactCode(c, min), StarCode(c, greedy, check));
      EncodableConcat(ExactCode(c, min), UpToCode(c, greedy, max - min));
    }
  }

  lemma EncodableNil() ensures AllEncodable([]) {}

  lemma {:induction false} SimpleCountFits(c: seq<Instr>)
    ensures SimpleCount(c) <= Len(c)
  {
    if c != [] { SimpleCountFits(c[1..]); }
  }

  lemma QuantEncodable(c: seq<Instr>, first: int, last: int, min: int, max: int, greedy: bool)
    requires AllEncodable(c) && Len(c) < TWO31 - 32 && 0 <= min <= max <= INF && (first <= last ==> 0 <= first && last < 256)
    ensures AllEncodable(EmitQuant(c, first, last, min, max, greedy))
    ensures AllEncodable(RepCode(c, min, max, greedy))
  {
    hide Len, AllEncodable, RepCode, EmitQuant, SimpleCount, NeedsCheck;
    SimpleCountFits(c);
    EmitQuantIs(c, first, last, min, max, greedy);
    RepEncodable(c, min, max, greedy);
    var core := RepCode(c, min, max, greedy);
    if Resets(c, first, last, min, max, greedy) {
      EncodableOne(SaveReset(first, last));
      EncodableConcat([SaveReset(first, last)], core);
    } else {
      assert [] + core == core;
    }
  }

  lemma ClassEncodable(points: seq<int>)
    requires SortedPoints(points) && |points| / 2 < 65535
    ensures Encodable(EmitClass(points))
  {
    var n := |points|;
    if n >= 2 {
      assert points[2 * (n / 2 - 1)] < points[2 * (n / 2 - 1) + 1];
      forall k | 0 <= k < n ensures points[k] <= points[n - 1] && (k <= n - 2 ==> points[k] <= points[n - 2]) {}
      forall k | 0 <= k < n && k % 2 == 1 ensures points[k] > 0 { assert points[2 * (k / 2)] < points[2 * (k / 2) + 1]; }
    }
  }

  lemma {:induction false} EmitEncodable(e: Env, r: Node, back: bool, cc: nat)
    requires WellFormed(r) && WellFormedEnv(e) && Compilable(r, cc) && SizesFit(e, r, back, cc) && cc <= CAPTURE_COUNT_MAX
    ensures AllEncodable(Emit(e, r, back, cc))
    decreases r
  {
    hide Len, EmitQuant, EmitClass, AllEncodable;
    match r
    case Empty => EncodableNil();
    case Chr(c) =>
      var f := Fold(e, c);
      OneCharEncodable(back, if f <= 0xffff then Char(f) else Char32(f));
    case AnyChar => OneCharEncodable(back, if e.dotall then Any else Dot);
    case Class(points) => ClassEncodable(points); OneCharEncodable(back, EmitClass(points));
    case Cat(a, b) =>
      CapturesFit(a, cc);
      EmitEncodable(e, a, back, cc);
      EmitEncodable(e, b, back, cc + NCaps(a));
      var ca, cb := Emit(e, a, back, cc), Emit(e, b, back, cc + NCaps(a));
      EncodableConcat(ca, cb);
      EncodableConcat(cb, ca);
    case Alt(a, b) =>
      CapturesFit(a, cc);
      EmitEncodable(e, a, back, cc);
      EmitEncodable(e, b, back, cc + NCaps(a));
      var ca, cb := Emit(e, a, back, cc), Emit(e, b, back, cc + NCaps(a));
      EncodableOne(SplitNextFirst(Len(ca) + 5));
      EncodableOne(Goto(Len(cb)));
      Encodable3([SplitNextFirst(Len(ca) + 5)], ca, [Goto(Len(cb))]);
      EncodableConcat([SplitNextFirst(Len(ca) + 5)] + ca + [Goto(Len(cb))], cb);
    case Group(b) =>
      EmitEncodable(e, b, back, cc + 1);
      EncodableOne(SaveStart(cc));
      EncodableOne(SaveEnd(cc));
      Encodable3([SaveStart(cc)], Emit(e, b, back, cc + 1), [SaveEnd(cc)]);
      Encodable3([SaveEnd(cc)], Emit(e, b, back, cc + 1), [SaveStart(cc)]);
    case Look(negative, behind, b) =>
      EmitEncodable(e, b, behind, cc);
      var body := Emit(e, b, behind, cc);
      var i := if negative then NegativeLookahead(Len(body) + 1) else Lookahead(Len(body) + 1);
      EncodableOne(i);
      EncodableOne(Match);
      Encodable3([i], body, [Match]);
    case Quant(b, min, max, greedy) =>
      CapturesFit(b, cc);
      EmitEncodable(e, b, back, cc);
      QuantEncodable(Emit(e, b, back, cc), cc, cc + NCaps(b) - 1, min, max, greedy);
    case Bol => EncodableOne(LineStart);
    case Eol => EncodableOne(LineEnd);
    case WordB(negated) => EncodableOne(if negated then NotWordBoundary else WordBoundary);
    case BackRef(n) => EncodableOne(if back then BackwardBackReference(n) else BackReference(n));
  }

  lemma OneCharEncodable(back: bool, i: Instr)
    requires Encodable(i)
    ensures AllEncodable(OneChar(back, i))
  {
  }
}

/** The one-pass compiler: it appends, inserts and patches bytes, and what it
    leaves in the buffer is the encoding of the specified code. */
module RegexCompiler {
  import opened Bytes
  import opened RegexSyntax
  import opened Bytecode
  import opened RegexEmit
  import opened RegexCorrectness
  import opened RegexInvariant
  import opened RegexAnalysis
  import opened RegexEncodable
  import opened DynamicBuffer

  /** Bytes of an opcode with a 32 bit operand. */
  function OpU32(op: byte, v: int): (s: seq<byte>)
    requires 0 <= v < TWO32
    ensures |s| == 5
  {
    [op] + U32(v)
  }

  lemma EncodeCons(i: Instr, c: seq<Instr>)
    requires Encodable(i) && AllEncodable(c)
    ensures AllEncodable([i] + c) && Encode([i] + c) == Encode1(i) + Encode(c)
  {
    hide Encode, Encode1, Encodable;
    EncodableOne(i);
    EncodeConcat([i], c);
    Encode1Is(i);
  }

  lemma EncodeSnoc(c: seq<Instr>, i: Instr)
    requires Encodable(i) && AllEncodable(c)
    ensures AllEncodable(c + [i]) && Encode(c + [i]) == Encode(c) + Encode1(i)
  {
    hide Encode, Encode1, Encodable;
    EncodableOne(i);
    EncodeConcat(c, [i]);
    Encode1Is(i);
  }

  lemma NonNegativeDisp(d: int)
    requires 0 <= d < TWO31
    ensures OfSigned(d) == d && Disp(d) == U32(d)
  {
  }

  function SplitOp(greedy: bool): byte { if greedy then 9 else 8 }

  lemma SplitBytes(greedy: bool, d: int)
    requires IsDisp(d)
    ensures Encode1(Split(greedy, d)) == [SplitOp(greedy)] + Disp(d)
  {
  }

  function StarTail(n: int, check: bool): seq<byte> {
    if check then [26] + Disp(-(n + 11)) else [7] + Disp(-(n + 10))
  }

  function LoopTail(d: int): seq<byte> { [14] + Disp(d) + [16] }

  lemma Grouped(pre: seq<byte>, head: seq<byte>, body: seq<byte>, tail: seq<byte>)
    ensures pre + head + body + tail == pre + (head + body + tail)
  {
  }

  lemma Grouped5(pre: seq<byte>, a: seq<byte>, b: seq<byte>, c: seq<byte>, d: seq<byte>, e: seq<byte>)
    ensures pre + a + b + c + d + e == pre + (a + b + c + d + e)
  {
  }

  lemma Located(pre: seq<byte>, body: seq<byte>, tail: seq<byte>)
    ensures (pre + body + tail)[|pre|..|pre| + |body|] == body
    ensures tail == [] ==> pre + body + tail == pre + body
  {
  }

  class Compiler {
    const env: Env
    const code: DynBuf
    var captureCount: nat

    ghost predicate Valid()
      reads this, code
    {
      code.Valid()
    }

    constructor (env: Env)
      ensures Valid() && code.Contents() == [] && captureCount == 1 && this.env == env && fresh(code) && fresh(code.buf)
    {
      this.env := env;
      code := new DynBuf();
      captureCount := 1;
    }

    /** re_emit_op and its variants: append the bytes of one instruction. */
    method EmitBytes(s: seq<byte>)
      requires Valid()
      modifies code, code.buf
      ensures Valid() && code.Contents() == old(code.Contents()) + s
      ensures code.buf == old(code.buf) || fresh(code.buf)
    {
      code.Put(s);
    }

    /** re_emit_goto: a jump to the byte offset `target`. */
    method EmitGoto(op: byte, target: nat)
      requires Valid()
      modifies code, code.buf
      ensures Valid() && code.Contents() == old(code.Contents()) + ([op] + Disp(target - (old(code.size) + 5)))
      ensures code.buf == old(code.buf) || fresh(code.buf)
    {
      code.Put([op]);
      var pos := code.size;
      code.Put(U32((target - (pos + 4)) % TWO32));
    }

    /** Put `s` in front of the code that starts at `start`. */
    method Prepend(start: nat, s: seq<byte>, ghost pre: seq<byte>, ghost body: seq<byte>)
      requires Valid() && code.Contents() == pre + body && |pre| == start
      modifies code, code.buf
      ensures Valid() && code.Contents() == pre + s + body
      ensures code.buf == old(code.buf) || fresh(code.buf)
    {
      assert (pre + body)[..start] == pre && (pre + body)[start..] == body;
      code.InsertBytes(start, s);
    }

    /** put_u32 over a field that was emitted as zero. */
    method Patch(pos: nat, v: nat, ghost left: seq<byte>, ghost right: seq<byte>)
      requires Valid() && v < TWO32 && |left| == pos && code.Contents() == left + U32(0) + right
      modifies code.buf
      ensures Valid() && code.Contents() == left + U32(v) + right
    {
      assert (left + U32(0) + right)[..pos] == left && (left + U32(0) + right)[pos + 4..] == right;
      code.Store(pos, U32(v));
    }

    /** Append a copy of the code at `start`. */
    method CopyBlock(start: nat, len: nat, ghost before: seq<byte>, ghost added: seq<byte>, ghost block: seq<byte>)
      requires Valid() && code.Contents() == before + added && start + len <= |before| && before[start..start + len] == block
      modifies code, code.buf
      ensures Valid() && code.Contents() == before + added + block
      ensures code.buf == old(code.buf) || fresh(code.buf)
    {
      assert (before + added)[start..start + len] == block;
      code.PutSelf(start, len);
    }

    /** A loop around the atom at `start`: split before it, jump back after it. */
    method WrapStar(start: nat, greedy: bool, check: bool, ghost pre: seq<byte>, ghost atom: seq<Instr>)
      requires Valid() && AllEncodable(atom) && code.Contents() == pre + Encode(atom) && |pre| == start
      requires Len(atom) < TWO31 - 32
      modifies code, code.buf
      ensures Valid() && AllEncodable(StarCode(atom, greedy, check))
      ensures code.Contents() == pre + Encode(StarCode(atom, greedy, check))
      ensures code.buf == old(code.buf) || fresh(code.buf)
    {
      hide Encode, Len, AllEncodable, Disp, U32, OpU32, SplitOp, StarCode;
      EncodeLen(atom);
      var len := code.size - start;
      StarBytes(atom, greedy, check);
      var head := if check then OpU32(SplitOp(greedy), len + 6) + [25] else OpU32(SplitOp(greedy), len + 5);
      Prepend(start, head, pre, Encode(atom));
      EmitGoto(if check then 26 else 7, start);
      Grouped(pre, head, Encode(atom), StarTail(Len(atom), check));
    }

    /** The same loop around a copy of the atom at `start`, at the end. */
    method AppendStar(start: nat, len: nat, greedy: bool, check: bool, ghost atom: seq<Instr>)
      requires Valid() && AllEncodable(atom) && len == Len(atom) && start + len <= code.size
      requires code.Contents()[start..start + Len(atom)] == Encode(atom)
      requires Len(atom) < TWO31 - 32
      modifies code, code.buf
      ensures Valid() && AllEncodable(StarCode(atom, greedy, check))
      ensures code.Contents() == old(code.Contents()) + Encode(StarCode(atom, greedy, check))
      ensures code.buf == old(code.buf) || fresh(code.buf)
    {
      hide Encode, Len, AllEncodable, Disp, U32, OpU32, SplitOp, StarCode;
      EncodeLen(atom);
      StarBytes(atom, greedy, check);
      var pos := code.size;
      ghost var before := code.Contents();
      var head := if check then OpU32(SplitOp(greedy), len + 6) + [25] else OpU32(SplitOp(greedy), len + 5);
      EmitBytes(head);
      CopyBlock(start, len, before, head, Encode(atom));
      EmitGoto(if check then 26 else 7, pos);
      Grouped(before, head, Encode(atom), StarTail(len, check));
    }

    /** A counted loop around the atom at `start`. */
    method WrapUpTo(start: nat, greedy: bool, k: int, ghost pre: seq<byte>, ghost atom: seq<Instr>)
      requires Valid() && AllEncodable(atom) && code.Contents() == pre + Encode(atom) && |pre| == start
      requires Len(atom) < TWO31 - 32 && 0 <= k <= INF
      modifies code, code.buf
      ensures Valid() && AllEncodable(UpToCode(atom, greedy, k))
      ensures code.Contents() == pre + Encode(UpToCode(atom, greedy, k))
      ensures code.buf == old(code.buf) || fresh(code.buf)
    {
      hide Encode, Len, AllEncodable, Disp, U32, OpU32, SplitOp, UpToCode;
      EncodeLen(atom);
      var len := code.size - start;
      UpToBytes(atom, greedy, k);
      var head := OpU32(15, k) + OpU32(SplitOp(greedy), len + 5);
      Prepend(start, head, pre, Encode(atom));
      EmitGoto(14, start + 5);
      EmitBytes([16]);
      Grouped(pre, head, Encode(atom), LoopTail(-(Len(atom) + 10)));
    }

    /** The same around a copy of the atom, at the end. */
    method AppendUpTo(start: nat, len: nat, greedy: bool, k: int, ghost atom: seq<Instr>)
      requires Valid() && AllEncodable(atom) && len == Len(atom) && start + len <= code.size
      requires code.Contents()[start..start + Len(atom)] == Encode(atom)
      requires Len(atom) < TWO31 - 32 && 0 <= k <= INF
      modifies code, code.buf
      ensures Valid() && AllEncodable(UpToCode(atom, greedy, k))
      ensures code.Contents() == old(code.Contents()) + Encode(UpToCode(atom, greedy, k))
      ensures code.buf == old(code.buf) || fresh(code.buf)
    {
      hide Encode, Len, AllEncodable, Disp, U32, OpU32, SplitOp, UpToCode;
      EncodeLen(atom);
      UpToBytes(atom, greedy, k);
      ghost var before := code.Contents();
      EmitBytes(OpU32(15, k));
      var pos := code.size;
      EmitBytes(OpU32(SplitOp(greedy), len + 5));
      ghost var head := OpU32(15, k) + OpU32(SplitOp(greedy), len + 5);
      assert code.Contents() == before + head;
      CopyBlock(start, len, before, head, Encode(atom));
      EmitGoto(14, pos);
      EmitBytes([16]);
      Grouped(before, head, Encode(atom), LoopTail(-(len + 10)));
    }

    /** Mandatory iterations of the atom at `start`; returns where the atom is. */
    method WrapExact(start: nat, k: int, ghost pre: seq<byte>, ghost atom: seq<Instr>) returns (at: nat)
      requires Valid() && AllEncodable(atom) && code.Contents() == pre + Encode(atom) && |pre| == start
      requires Len(atom) < TWO31 - 32 && 1 <= k <= INF
      modifies code, code.buf
      ensures Valid() && AllEncodable(ExactCode(atom, k))
      ensures code.Contents() == pre + Encode(ExactCode(atom, k))
      ensures at + Len(atom) <= code.size && code.Contents()[at..at + Len(atom)] == Encode(atom)
      ensures code.buf == old(code.buf) || fresh(code.buf)
    {
      hide Encode, Len, AllEncodable, ExactCode, Disp, OpU32;
      EncodeLen(atom);
      if k == 1 {
        at := start;
        ExactOne(atom);
        Located(pre, Encode(atom), []);
      } else {
        at := start + 5;
        WrapCounted(start, k, pre, atom);
        Located(pre + OpU32(15, k), Encode(atom), LoopTail(-(Len(atom) + 5)));
      }
    }

    method WrapCounted(start: nat, k: int, ghost pre: seq<byte>, ghost atom: seq<Instr>)
      requires Valid() && AllEncodable(atom) && code.Contents() == pre + Encode(atom) && |pre| == start
      requires Len(atom) < TWO31 - 32 && 2 <= k <= INF
      modifies code, code.buf
      ensures Valid() && AllEncodable(ExactCode(atom, k))
      ensures code.Contents() == pre + Encode(ExactCode(atom, k))
      ensures code.Contents() == pre + OpU32(15, k) + Encode(atom) + LoopTail(-(Len(atom) + 5))
      ensures code.buf == old(code.buf) || fresh(code.buf)
    {
      hide Encode, Len, AllEncodable, ExactCode, Disp, OpU32;
      EncodeLen(atom);
      ExactBytes(atom, k);
      Prepend(start, OpU32(15, k), pre, Encode(atom));
      EmitGoto(14, start + 5);
      EmitBytes([16]);
      assert code.Contents() == pre + OpU32(15, k) + Encode(atom) + LoopTail(-(Len(atom) + 5));
      Grouped(pre, OpU32(15, k), Encode(atom), LoopTail(-(Len(atom) + 5)));
    }

    /** The simple greedy quantifier opcode around the atom at `start`. */
    method WrapGreedy(start: nat, count: int, min: int, max: int, ghost pre: seq<byte>, ghost atom: seq<Instr>)
      requires Valid() && AllEncodable(atom) && code.Contents() == pre + Encode(atom) && |pre| == start
      requires Len(atom) < TWO31 - 32 && 0 <= min <= max <= INF && 0 <= count < TWO31
      modifies code, code.buf
      ensures Valid() && AllEncodable([SimpleGreedyQuant(Len(atom) + 1, min, max, count)] + (atom + [Match]))
      ensures code.Contents() == pre + Encode([SimpleGreedyQuant(Len(atom) + 1, min, max, count)] + (atom + [Match]))
      ensures code.buf == old(code.buf) || fresh(code.buf)
    {
      hide Encode, Len, AllEncodable, U32, Encodable;
      EncodeLen(atom);
      EmitBytes([10]);
      var next := code.size - start;
      ghost var i := SimpleGreedyQuant(next, min, max, count);
      GreedyBytes(next, min, max, count, atom);
      Prepend(start, [28] + U32(next) + U32(min) + U32(max) + U32(count), pre, Encode(atom) + [10]);
    }

    /** The quantifier part of re_parse_term, for the atom at `start` whose
        captures begin at `lastCaptureCount`. */
    method Quantify(start: nat, lastCaptureCount: nat, min: int, max: int, greedy: bool, ghost pre: seq<byte>, ghost atom: seq<Instr>)
      requires Valid() && AllEncodable(atom) && code.Contents() == pre + Encode(atom) && |pre| == start
      requires OpcodesBelow(atom) && Len(atom) < TWO31 - 32 && 0 <= min <= max <= INF
      requires lastCaptureCount <= captureCount <= CAPTURE_COUNT_MAX
      modifies code, code.buf
      ensures Valid() && AllEncodable(EmitQuant(atom, lastCaptureCount, captureCount - 1, min, max, greedy))
      ensures code.Contents() == pre + Encode(EmitQuant(atom, lastCaptureCount, captureCount - 1, min, max, greedy))
      ensures code.buf == old(code.buf) || fresh(code.buf)
    {
      hide Encode, Len, AllEncodable, CheckAdvance, SimpleCount, EmitQuant, OpcodesBelow, RepCode;
      EncodeLen(atom);
      ghost var first, last := lastCaptureCount, captureCount - 1;
      QuantEncodable(atom, first, last, min, max, greedy);
      EmitQuantIs(atom, first, last, min, max, greedy);
      ghost var core := RepCode(atom, min, max, greedy);
      assert [] + core == core;
      assert (pre + Encode(atom))[start..] == Encode(atom);
      var check := false;
      if greedy {
        if max > 0 {
          var len := IsSimpleQuantifier(code.Contents()[start..], atom);
          if len > 0 {
            SimpleCountFits(atom);
            WrapGreedy(start, len, min, max, pre, atom);
            GreedyRepCode(atom, min, max);
            return;
          }
        }
        var ret := CheckAdvanceScan(code.Contents()[start..], atom);
        check := ret == 0;
      }
      assert check == NeedsCheck(atom, greedy) && !UsesGreedyOp(atom, max, greedy);
      if min == 0 {
        if lastCaptureCount != captureCount {
          var reset: seq<byte> := [13, lastCaptureCount, captureCount - 1];
          Prepend(start, reset, pre, Encode(atom));
          EncodeCons(SaveReset(first, last), core);
          ResetBytes(first, last);
          Optional(start + 3, min, max, greedy, check, pre + reset, atom);
          assert pre + reset + Encode(core) == pre + (reset + Encode(core));
        } else {
          Optional(start, min, max, greedy, check, pre, atom);
        }
      } else {
        Mandatory(start, min, max, greedy, check, pre, atom);
      }
    }

    /** At least one iteration. */
    method Mandatory(start: nat, min: int, max: int, greedy: bool, check: bool, ghost pre: seq<byte>, ghost atom: seq<Instr>)
      requires Valid() && AllEncodable(atom) && code.Contents() == pre + Encode(atom) && |pre| == start
      requires Len(atom) < TWO31 - 32 && 1 <= min <= max <= INF && !UsesGreedyOp(atom, max, greedy) && check == NeedsCheck(atom, greedy)
      requires AllEncodable(RepCode(atom, min, max, greedy))
      modifies code, code.buf
      ensures Valid() && code.Contents() == pre + Encode(RepCode(atom, min, max, greedy))
      ensures code.buf == old(code.buf) || fresh(code.buf)
    {
      hide Encode, Len, AllEncodable, StarCode, UpToCode, ExactCode, NeedsCheck, Disp;
      EncodeLen(atom);
      var size := code.size - start;
      if min == 1 && max == INF && !check {
        EncodeSnoc(atom, Split(!greedy, -(Len(atom) + 5)));
        SplitBytes(!greedy, -(Len(atom) + 5));
        EmitGoto(SplitOp(!greedy), start);
      } else {
        var at := WrapExact(start, min, pre, atom);
        if max == INF {
          AppendStar(at, size, greedy, check, atom);
          EncodeConcat(ExactCode(atom, min), StarCode(atom, greedy, check));
        } else if max > min {
          AppendUpTo(at, size, greedy, max - min, atom);
          EncodeConcat(ExactCode(atom, min), UpToCode(atom, greedy, max - min));
        }
      }
    }

    /** An optional atom or loop, after the captures have been reset. */
    method Optional(at: nat, min: int, max: int, greedy: bool, check: bool, ghost pre: seq<byte>, ghost atom: seq<Instr>)
      requires Valid() && AllEncodable(atom) && code.Contents() == pre + Encode(atom) && |pre| == at
      requires Len(atom) < TWO31 - 32 && 0 == min <= max <= INF && !UsesGreedyOp(atom, max, greedy) && check == NeedsCheck(atom, greedy)
      requires AllEncodable(RepCode(atom, min, max, greedy))
      modifies code, code.buf
      ensures Valid() && code.Contents() == pre + Encode(RepCode(atom, min, max, greedy))
      ensures code.buf == old(code.buf) || fresh(code.buf)
    {
      hide Encode, Len, AllEncodable, StarCode, UpToCode, NeedsCheck, Disp, U32;
      EncodeLen(atom);
      var len := code.size - at;
      if max == 0 {
        code.Truncate(at);
        EncodeNil();
      } else if max == 1 {
        NonNegativeDisp(len);
        EncodeCons(Split(greedy, len), atom);
        SplitBytes(greedy, len);
        Prepend(at, OpU32(SplitOp(greedy), len), pre, Encode(atom));
      } else if max == INF {
        WrapStar(at, greedy, check, pre, atom);
      } else {
        WrapUpTo(at, greedy, max, pre, atom);
      }
    }

    /** re_parse_term, re_parse_alternative and re_parse_disjunction on a parsed
        pattern. Fails on too many captures or too many ranges. */
    method Compile(r: Node, back: bool) returns (ok: bool)
      requires Valid() && WellFormed(r) && WellFormedEnv(env) && captureCount <= CAPTURE_COUNT_MAX
      requires SizesFit(env, r, back, captureCount)
      modifies this, code, code.buf
      ensures Valid() && (code.buf == old(code.buf) || fresh(code.buf))
      ensures ok <==> Compilable(r, old(captureCount))
      ensures ok ==> captureCount == old(captureCount) + NCaps(r) <= CAPTURE_COUNT_MAX
      ensures ok ==> AllEncodable(Emit(env, r, back, old(captureCount)))
      ensures ok ==> code.Contents() == old(code.Contents()) + Encode(Emit(env, r, back, old(captureCount)))
      decreases r, 1
    {
      hide Encode, Len, AllEncodable, EmitQuant, EmitClass, Encode1, Disp, U32, WellFormedEnv;
      ghost var before, cc := code.Contents(), captureCount;
      ok := true;
      match r {
        case Empty =>
          EncodeNil();
        case Chr(c) =>
          var f := Fold(env, c);
          FoldedChar(env, c);
          EmitChar(back, if f <= 0xffff then Char(f) else Char32(f));
        case AnyChar =>
          EmitChar(back, if env.dotall then Any else Dot);
        case Class(points) =>
          ok := |points| / 2 < 65535;
          if ok {
            ClassEncodable(points);
            EmitChar(back, EmitClass(points));
          }
        case Bol =>
          EmitInstr(LineStart);
        case Eol =>
          EmitInstr(LineEnd);
        case WordB(negated) =>
          EmitInstr(if negated then NotWordBoundary else WordBoundary);
        case BackRef(n) =>
          EmitInstr(if back then BackwardBackReference(n) else BackReference(n));
        case Cat(_, _) =>
          ok := CompileCat(r, back);
        case Alt(_, _) =>
          ok := CompileAlt(r, back);
        case Group(_) =>
          ok := CompileGroup(r, back);
        case Look(_, _, _) =>
          ok := CompileLook(r, back);
        case Quant(b, min, max, greedy) =>
          ok := CompileQuant(r, back);
      }
    }

    method EmitInstr(i: Instr)
      requires Valid() && Encodable(i)
      modifies code, code.buf
      ensures Valid() && (code.buf == old(code.buf) || fresh(code.buf))
      ensures AllEncodable([i]) && code.Contents() == old(code.Contents()) + Encode([i])
    {
      EncodableOne(i);
      Encode1Is(i);
      code.Put(Encode1(i));
    }

    method EmitChar(back: bool, i: Instr)
      requires Valid() && Encodable(i)
      modifies code, code.buf
      ensures Valid() && (code.buf == old(code.buf) || fresh(code.buf))
      ensures AllEncodable(OneChar(back, i)) && code.Contents() == old(code.Contents()) + Encode(OneChar(back, i))
    {
      hide Encode, Encodable;
      OneCharEncodable(back, i);
      if back { EmitInstr(Prev); }
      EmitInstr(i);
      if back {
        EmitInstr(Prev);
        EncodeConcat([Prev], [i]);
        EncodeConcat([Prev] + [i], [Prev]);
        assert [Prev] + [i] + [Prev] == [Prev, i, Prev];
      }
    }

    /** A term after an alternative; backward, it is moved in front of it. */
    method CompileCat(r: Node, back: bool) returns (ok: bool)
      requires Valid() && WellFormed(r) && WellFormedEnv(env) && captureCount <= CAPTURE_COUNT_MAX && r.Cat?
      requires SizesFit(env, r, back, captureCount)
      modifies this, code, code.buf
      ensures Valid() && (code.buf == old(code.buf) || fresh(code.buf))
      ensures ok <==> Compilable(r, old(captureCount))
      ensures ok ==> captureCount == old(captureCount) + NCaps(r) <= CAPTURE_COUNT_MAX
      ensures ok ==> AllEncodable(Emit(env, r, back, old(captureCount)))
      ensures ok ==> code.Contents() == old(code.Contents()) + Encode(Emit(env, r, back, old(captureCount)))
      decreases r, 0
    {
      hide Encode, Len, AllEncodable, WellFormedEnv, Emit, Compilable, SizesFit, NCaps, WellFormed;
      ghost var before, cc := code.Contents(), captureCount;
      PairParts(env, r, back, cc);
      ghost var ca, cb := Emit(env, r.left, back, cc), Emit(env, r.right, back, cc + NCaps(r.left));
      var start := code.size;
      ok := Compile(r.left, back);
      if ok {
        var mid := code.size;
        ok := Compile(r.right, back);
        if ok {
          EncodeConcat(ca, cb);
          if back {
            EncodeConcat(cb, ca);
            ghost var all := code.Contents();
            assert all == before + Encode(ca) + Encode(cb);
            assert all[..start] == before && all[start..mid] == Encode(ca) && all[mid..] == Encode(cb);
            code.Rotate(start, mid);
            assert code.Contents() == before + (Encode(cb) + Encode(ca));
          } else {
            assert code.Contents() == before + (Encode(ca) + Encode(cb));
          }
        }
      }
    }

    /** `|`: a split in front of the first part, a patched jump over the second. */
    method CompileAlt(r: Node, back: bool) returns (ok: bool)
      requires Valid() && WellFormed(r) && WellFormedEnv(env) && captureCount <= CAPTURE_COUNT_MAX && r.Alt?
      requires SizesFit(env, r, back, captureCount)
      modifies this, code, code.buf
      ensures Valid() && (code.buf == old(code.buf) || fresh(code.buf))
      ensures ok <==> Compilable(r, old(captureCount))
      ensures ok ==> captureCount == old(captureCount) + NCaps(r) <= CAPTURE_COUNT_MAX
      ensures ok ==> AllEncodable(Emit(env, r, back, old(captureCount)))
      ensures ok ==> code.Contents() == old(code.Contents()) + Encode(Emit(env, r, back, old(captureCount)))
      decreases r, 0
    {
      hide Encode, Len, AllEncodable, WellFormedEnv, Disp, U32, OpU32, Emit, Compilable, SizesFit, NCaps, WellFormed;
      ghost var before, cc := code.Contents(), captureCount;
      PairParts(env, r, back, cc);
      ghost var ca, cb := Emit(env, r.left, back, cc), Emit(env, r.right, back, cc + NCaps(r.left));
      var start := code.size;
      ok := Compile(r.left, back);
      if ok {
        EncodeLen(ca);
        ghost var left := before + OpU32(9, Len(ca) + 5) + Encode(ca) + [7];
        var pos := OpenAlt(start, before, Encode(ca));
        ok := Compile(r.right, back);
        if ok {
          EncodeLen(cb);
          AltBytes(ca, cb);
          var len := code.size - (pos + 4);
          Patch(pos, len, left, Encode(cb));
          Grouped5(before, OpU32(9, Len(ca) + 5), Encode(ca), [7], U32(len), Encode(cb));
        }
      }
    }

    /** The split before the first alternative and the jump after it, whose
        displacement at the returned position is still open. */
    method OpenAlt(start: nat, ghost pre: seq<byte>, ghost first: seq<byte>) returns (pos: nat)
      requires Valid() && code.Contents() == pre + first && |pre| == start && |first| < TWO31 - 32
      modifies code, code.buf
      ensures Valid() && (code.buf == old(code.buf) || fresh(code.buf))
      ensures var left := pre + OpU32(9, |first| + 5) + first + [7];
        code.Contents() == left + U32(0) && pos == |left|
    {
      hide OpU32, U32;
      var len := code.size - start;
      Prepend(start, OpU32(9, len + 5), pre, first);
      code.Put([7]);
      pos := code.size;
      code.Put(U32(0));
    }

    method CompileGroup(r: Node, back: bool) returns (ok: bool)
      requires Valid() && WellFormed(r) && WellFormedEnv(env) && captureCount <= CAPTURE_COUNT_MAX && r.Group?
      requires SizesFit(env, r, back, captureCount)
      modifies this, code, code.buf
      ensures Valid() && (code.buf == old(code.buf) || fresh(code.buf))
      ensures ok <==> Compilable(r, old(captureCount))
      ensures ok ==> captureCount == old(captureCount) + NCaps(r) <= CAPTURE_COUNT_MAX
      ensures ok ==> AllEncodable(Emit(env, r, back, old(captureCount)))
      ensures ok ==> code.Contents() == old(code.Contents()) + Encode(Emit(env, r, back, old(captureCount)))
      decreases r, 0
    {
      hide Encode, Len, AllEncodable, WellFormedEnv;
      ghost var before := code.Contents();
      var index := captureCount;
      if index >= CAPTURE_COUNT_MAX { return false; }
      captureCount := captureCount + 1;
      EmitInstr(if back then SaveEnd(index) else SaveStart(index));
      ok := Compile(r.body, back);
      if ok {
        EmitInstr(if back then SaveStart(index) else SaveEnd(index));
        ghost var i, j := if back then SaveEnd(index) else SaveStart(index), if back then SaveStart(index) else SaveEnd(index);
        ghost var body := Emit(env, r.body, back, index + 1);
        EncodeConcat([i], body);
        EncodeConcat([i] + body, [j]);
        assert code.Contents() == before + (Encode([i]) + Encode(body) + Encode([j]));
      }
    }

    method CompileLook(r: Node, back: bool) returns (ok: bool)
      requires Valid() && WellFormed(r) && WellFormedEnv(env) && captureCount <= CAPTURE_COUNT_MAX && r.Look?
      requires SizesFit(env, r, back, captureCount)
      modifies this, code, code.buf
      ensures Valid() && (code.buf == old(code.buf) || fresh(code.buf))
      ensures ok <==> Compilable(r, old(captureCount))
      ensures ok ==> captureCount == old(captureCount) + NCaps(r) <= CAPTURE_COUNT_MAX
      ensures ok ==> AllEncodable(Emit(env, r, back, old(captureCount)))
      ensures ok ==> code.Contents() == old(code.Contents()) + Encode(Emit(env, r, back, old(captureCount)))
      decreases r, 0
    {
      hide Encode, Len, AllEncodable, WellFormedEnv, Disp, U32, Encodable, Emit, Compilable, SizesFit, NCaps, WellFormed;
      ghost var before, cc := code.Contents(), captureCount;
      LookParts(env, r, back, cc);
      ghost var body := Emit(env, r.body, r.behind, cc);
      var op: byte := if r.negative then 24 else 23;
      code.Put([op]);
      var pos := code.size;
      code.Put(U32(0));
      ok := Compile(r.body, r.behind);
      if ok {
        EncodeLen(body);
        CloseLook(pos, op, before, Encode(body));
        LookBytes(r.negative, body);
        Grouped(before, [op], U32(Len(body) + 1), Encode(body) + [10]);
      }
    }

    /** The `match` of a lookahead, and its displacement. */
    method CloseLook(pos: nat, op: byte, ghost pre: seq<byte>, ghost body: seq<byte>)
      requires Valid() && code.Contents() == pre + [op] + U32(0) + body && pos == |pre| + 1 && |body| < TWO31 - 32
      modifies code, code.buf
      ensures Valid() && (code.buf == old(code.buf) || fresh(code.buf))
      ensures code.Contents() == pre + [op] + U32(|body| + 1) + (body + [10])
    {
      hide U32;
      code.Put([10]);
      assert pre + [op] + U32(0) + body + [10] == (pre + [op]) + U32(0) + (body + [10]);
      var len := code.size - (pos + 4);
      Patch(pos, len, pre + [op], body + [10]);
    }

    method CompileQuant(r: Node, back: bool) returns (ok: bool)
      requires Valid() && WellFormed(r) && WellFormedEnv(env) && captureCount <= CAPTURE_COUNT_MAX && r.Quant?
      requires SizesFit(env, r, back, captureCount)
      modifies this, code, code.buf
      ensures Valid() && (code.buf == old(code.buf) || fresh(code.buf))
      ensures ok <==> Compilable(r, old(captureCount))
      ensures ok ==> captureCount == old(captureCount) + NCaps(r) <= CAPTURE_COUNT_MAX
      ensures ok ==> AllEncodable(Emit(env, r, back, old(captureCount)))
      ensures ok ==> code.Contents() == old(code.Contents()) + Encode(Emit(env, r, back, old(captureCount)))
      decreases r, 0
    {
      hide Encode, Len, AllEncodable, WellFormedEnv, EmitQuant, OpcodesBelow;
      ghost var before := code.Contents();
      var start, count := code.size, captureCount;
      ok := Compile(r.body, back);
      if ok {
        AtomBelow(env, r.body, back, count);
        Quantify(start, count, r.min, r.max, r.greedy, before, Emit(env, r.body, back, count));
      }
    }
  }

  lemma ExactOne(atom: seq<Instr>)
    ensures ExactCode(atom, 1) == atom
  {
  }

  lemma GreedyRepCode(atom: seq<Instr>, min: int, max: int)
    requires UsesGreedyOp(atom, max, true)
    ensures RepCode(atom, min, max, true) == [SimpleGreedyQuant(Len(atom) + 1, min, max, SimpleCount(atom))] + (atom + [Match])
  {
  }

  /** The parts of a two-part pattern. */
  lemma PairParts(e: Env, r: Node, back: bool, cc: nat)
    requires (r.Cat? || r.Alt?) && WellFormed(r) && SizesFit(e, r, back, cc)
    ensures WellFormed(r.left) && WellFormed(r.right) && NCaps(r) == NCaps(r.left) + NCaps(r.right)
    ensures SizesFit(e, r.left, back, cc) && SizesFit(e, r.right, back, cc + NCaps(r.left))
    ensures Len(Emit(e, r.left, back, cc)) < TWO31 - 32 && Len(Emit(e, r.right, back, cc + NCaps(r.left))) < TWO31 - 32
    ensures Compilable(r, cc) <==> Compilable(r.left, cc) && Compilable(r.right, cc + NCaps(r.left))
    ensures var ca, cb := Emit(e, r.left, back, cc), Emit(e, r.right, back, cc + NCaps(r.left));
      Emit(e, r, back, cc)
      == if r.Alt? then [SplitNextFirst(Len(ca) + 5)] + ca + [Goto(Len(cb))] + cb else if back then cb + ca else ca + cb
  {
    hide Len;
  }

  lemma LookParts(e: Env, r: Node, back: bool, cc: nat)
    requires r.Look? && WellFormed(r) && SizesFit(e, r, back, cc)
    ensures WellFormed(r.body) && NCaps(r) == NCaps(r.body) && SizesFit(e, r.body, r.behind, cc)
    ensures Len(Emit(e, r.body, r.behind, cc)) < TWO31 - 32
    ensures Compilable(r, cc) <==> Compilable(r.body, cc)
    ensures var body := Emit(e, r.body, r.behind, cc);
      Emit(e, r, back, cc) == [if r.negative then NegativeLookahead(Len(body) + 1) else Lookahead(Len(body) + 1)] + body + [Match]
  {
    hide Len;
  }

  lemma FoldedChar(e: Env, c: int)
    requires WellFormedEnv(e) && 0 <= c <= 0x10ffff
    ensures 0 <= Fold(e, c) <= 0x10ffff
  {
  }

  lemma AtomBelow(e: Env, r: Node, back: bool, cc: nat)
    requires WellFormed(r) && cc + NCaps(r) <= CAPTURE_COUNT_MAX
    ensures OpcodesBelow(Emit(e, r, back, cc))
  {
    EmitCapOps(e, r, back, cc, CAPTURE_COUNT_MAX);
    var c := Emit(e, r, back, cc);
    assert forall k :: 0 <= k < |c| ==> CapOp(c[k], CAPTURE_COUNT_MAX);
  }

  lemma EncodeNil() ensures AllEncodable([]) && Encode([]) == [] {}

  lemma ResetBytes(first: int, last: int)
    requires 0 <= first < 256 && 0 <= last < 256
    ensures Encode1(SaveReset(first, last)) == [13, first, last]
  {
  }

  lemma StarBytes(atom: seq<Instr>, greedy: bool, check: bool)
    requires AllEncodable(atom) && Len(atom) < TWO31 - 32
    ensures AllEncodable(StarCode(atom, greedy, check))
    ensures var n := Len(atom);
      var head := if check then OpU32(SplitOp(greedy), n + 6) + [25] else OpU32(SplitOp(greedy), n + 5);
      Encode(StarCode(atom, greedy, check)) == head + Encode(atom) + StarTail(n, check)
  {
    hide Encode, Len, StarCode, StarTail, OpU32, AllEncodable;
    LoopsEncodable(atom, greedy, check, 0);
    if check { CheckedStarBytes(atom, greedy); } else { PlainStarBytes(atom, greedy); }
  }

  lemma CheckedStarBytes(atom: seq<Instr>, greedy: bool)
    requires AllEncodable(atom) && Len(atom) < TWO31 - 32
    ensures AllEncodable(StarCode(atom, greedy, true))
    ensures Encode(StarCode(atom, greedy, true)) == (OpU32(SplitOp(greedy), Len(atom) + 6) + [25]) + Encode(atom) + StarTail(Len(atom), true)
  {
    hide Encode, Len, Disp, U32, AllEncodable;
    var n: int := Len(atom);
    var z := BneCharPos(-(n + 11));
    EncodeSnoc(atom, z);
    assert StarCode(atom, greedy, true) == [Split(greedy, n + 6)] + ([PushCharPos] + (atom + [z]));
    EncodeCons(PushCharPos, atom + [z]);
    EncodeCons(Split(greedy, n + 6), [PushCharPos] + (atom + [z]));
    SplitBytes(greedy, n + 6);
    NonNegativeDisp(n + 6);
    assert Encode1(PushCharPos) == [25];
  }

  lemma PlainStarBytes(atom: seq<Instr>, greedy: bool)
    requires AllEncodable(atom) && Len(atom) < TWO31 - 32
    ensures AllEncodable(StarCode(atom, greedy, false))
    ensures Encode(StarCode(atom, greedy, false)) == OpU32(SplitOp(greedy), Len(atom) + 5) + Encode(atom) + StarTail(Len(atom), false)
  {
    hide Encode, Len, Disp, U32, AllEncodable;
    var n: int := Len(atom);
    var z := Goto(-(n + 10));
    EncodeSnoc(atom, z);
    assert StarCode(atom, greedy, false) == [Split(greedy, n + 5)] + (atom + [z]);
    EncodeCons(Split(greedy, n + 5), atom + [z]);
    SplitBytes(greedy, n + 5);
    NonNegativeDisp(n + 5);
  }

  lemma UpToBytes(atom: seq<Instr>, greedy: bool, k: int)
    requires AllEncodable(atom) && Len(atom) < TWO31 - 32 && 0 <= k <= INF
    ensures AllEncodable(UpToCode(atom, greedy, k))
    ensures var n := Len(atom);
      Encode(UpToCode(atom, greedy, k))
      == (OpU32(15, k) + OpU32(SplitOp(greedy), n + 5)) + Encode(atom) + LoopTail(-(n + 10))
  {
    hide Encode, Len, Disp, U32;
    var n: int := Len(atom);
    LoopsEncodable(atom, greedy, false, k);
    var s, loop := Split(greedy, n + 5), Loop(-(n + 10));
    assert UpToCode(atom, greedy, k) == [PushI32(k)] + ([s] + (atom + [loop] + [Drop]));
    EncodeSnoc(atom, loop);
    EncodeSnoc(atom + [loop], Drop);
    EncodeCons(s, atom + [loop] + [Drop]);
    EncodeCons(PushI32(k), [s] + (atom + [loop] + [Drop]));
    SplitBytes(greedy, n + 5);
    NonNegativeDisp(n + 5);
    assert Encode1(Drop) == [16];
  }

  lemma ExactBytes(atom: seq<Instr>, k: int)
    requires AllEncodable(atom) && Len(atom) < TWO31 - 32 && 2 <= k <= INF
    ensures AllEncodable(ExactCode(atom, k))
    ensures Encode(ExactCode(atom, k)) == OpU32(15, k) + Encode(atom) + LoopTail(-(Len(atom) + 5))
  {
    hide Encode, Len, Disp, U32;
    LoopsEncodable(atom, false, false, k);
    var loop := Loop(-(Len(atom) + 5));
    assert ExactCode(atom, k) == [PushI32(k)] + (atom + [loop] + [Drop]);
    EncodeSnoc(atom, loop);
    EncodeSnoc(atom + [loop], Drop);
    EncodeCons(PushI32(k), atom + [loop] + [Drop]);
    assert Encode1(Drop) == [16];
  }

  lemma GreedyBytes(next: nat, min: int, max: int, count: int, atom: seq<Instr>)
    requires AllEncodable(atom) && next < TWO31 && 0 <= min <= max <= INF && 0 <= count < TWO31
    ensures var i := SimpleGreedyQuant(next, min, max, count);
      AllEncodable([i] + (atom + [Match]))
      && Encode([i] + (atom + [Match])) == ([28] + U32(next) + U32(min) + U32(max) + U32(count)) + (Encode(atom) + [10])
  {
    hide Encode, U32;
    var i := SimpleGreedyQuant(next, min, max, count);
    EncodeSnoc(atom, Match);
    EncodeCons(i, atom + [Match]);
    NonNegativeDisp(next);
    assert Encode1(Match) == [10];
  }

  lemma AltBytes(ca: seq<Instr>, cb: seq<Instr>)
    requires AllEncodable(ca) && AllEncodable(cb) && Len(ca) < TWO31 - 32 && Len(cb) < TWO31 - 32
    ensures var c := [SplitNextFirst(Len(ca) + 5)] + ca + [Goto(Len(cb))] + cb;
      AllEncodable(c) && Encode(c) == OpU32(9, Len(ca) + 5) + Encode(ca) + [7] + U32(Len(cb)) + Encode(cb)
  {
    hide Encode, Len, U32;
    var i, j := SplitNextFirst(Len(ca) + 5), Goto(Len(cb));
    assert [i] + ca + [j] + cb == [i] + (ca + ([j] + cb));
    EncodeCons(j, cb);
    EncodeConcat(ca, [j] + cb);
    EncodeCons(i, ca + ([j] + cb));
    NonNegativeDisp(Len(ca) + 5);
    NonNegativeDisp(Len(cb));
  }

  lemma LookBytes(negative: bool, body: seq<Instr>)
    requires AllEncodable(body) && Len(body) < TWO31 - 32
    ensures var i := if negative then NegativeLookahead(Len(body) + 1) else Lookahead(Len(body) + 1);
      AllEncodable([i] + body + [Match])
      && Encode([i] + body + [Match]) == [if negative then 24 else 23] + U32(Len(body) + 1) + (Encode(body) + [10])
  {
    hide Encode, Len, U32;
    var i := if negative then NegativeLookahead(Len(body) + 1) else Lookahead(Len(body) + 1);
    assert [i] + body + [Match] == [i] + (body + [Match]);
    EncodeSnoc(body, Match);
    EncodeCons(i, body + [Match]);
    NonNegativeDisp(Len(body) + 1);
    assert Encode1(Match) == [10];
  }
}
