/** The linear scans over emitted bytes, as loops. */
module RegexAnalysis {
  import opened Bytes
  import opened RegexSyntax
  import opened Bytecode
  import opened RegexEmit
  import opened RegexTyping
  import opened RegexCorrectness

  lemma SizeOfOpcode(i: Instr)
    requires Encodable(i)
    ensures Opcode(i) != 21 && Opcode(i) != 22 ==> Size(i) == BaseSize(Opcode(i))
    ensures i.Range? <==> Opcode(i) == 21
    ensures i.Range32? <==> Opcode(i) == 22
    ensures i.Range? || i.Range32? ==> |i.pts| % 2 == 0 && Size(i) == 3 + (|i.pts| / 2) * if i.Range? then 4 else 8
  {
  }

  /** What the loops read at the start of instruction `k`. */
  lemma ScanAt(bytes: seq<byte>, c: seq<Instr>, k: nat)
    requires AllEncodable(c) && bytes == Encode(c) && k < |c|
    ensures var pos := Len(c[..k]);
      && pos + Size(c[k]) == Len(c[..k + 1]) <= |bytes|
      && Lies(bytes, pos, Encode1(c[k]))
      && bytes[pos] == Opcode(c[k])
      && (Opcode(c[k]) == 21 || Opcode(c[k]) == 22 ==> GetU16(bytes, pos + 1) == |c[k].pts| / 2)
    ensures forall b: nat :: b < Size(c[k]) ==> bytes[Len(c[..k]) + b] == Encode1(c[k])[b]
  {
    hide Encode, Operands, Len;
    var pre, i, post := c[..k], c[k], c[k + 1..];
    var pos := Len(pre);
    assert c == pre + ([i] + post);
    EncodableConcat(pre, [i] + post);
    EncodableConcat([i], post);
    EncodeConcat(pre, [i] + post);
    EncodeConcat([i], post);
    assert [i][0] == i;
    Encode1Is(i);
    EncodeLen(pre);
    assert bytes == Encode(pre) + (Encode1(i) + Encode(post));
    NextIndex(c, k);
    assert bytes[pos..pos + |Encode1(i)|] == Encode1(i);
    forall b: nat | b < Size(i) ensures bytes[pos + b] == Encode1(i)[b] { LiesByte(bytes, pos, Encode1(i), b); }
    SizeOfOpcode(i);
    if i.Range? || i.Range32? { RangeCount(bytes, pos, i); }
  }

  lemma RangeCount(bytes: seq<byte>, pos: nat, i: Instr)
    requires Encodable(i) && (i.Range? || i.Range32?) && Lies(bytes, pos, Encode1(i))
    ensures GetU16(bytes, pos + 1) == |i.pts| / 2
  {
    hide U16s, U32s;
    LiesHead(bytes, pos, i);
    var n := |i.pts| / 2;
    if i.Range? { LiesConcat(bytes, pos + 1, U16(n), U16s(i.pts)); } else { LiesConcat(bytes, pos + 1, U16(n), U32s(i.pts)); }
    Field16(n, bytes, pos + 1);
  }

  /** Length of the instruction at `pos`, as every scan computes it. */
  method InstrLen(bytes: seq<byte>, pos: nat, ghost c: seq<Instr>, ghost k: nat) returns (len: nat)
    requires AllEncodable(c) && bytes == Encode(c) && k < |c| && pos == Len(c[..k])
    ensures len == Size(c[k]) && pos + len == Len(c[..k + 1]) <= |bytes|
  {
    hide Encode, Len, Encodable, Encode1, Opcode, Lies;
    ScanAt(bytes, c, k);
    SizeOfOpcode(c[k]);
    var opcode := bytes[pos];
    len := BaseSize(opcode);
    if opcode == 21 {
      var val := GetU16(bytes, pos + 1);
      len := len + val * 4;
    } else if opcode == 22 {
      var val := GetU16(bytes, pos + 1);
      len := len + val * 8;
    }
  }

  predicate CharOpcode(op: int) { 1 <= op <= 4 || op == 21 || op == 22 }
  predicate TestOpcode(op: int) { op == 5 || op == 6 || op == 17 || op == 18 }

  lemma OpcodeClasses(i: Instr)
    ensures CharOpcode(Opcode(i)) <==> IsCharOp(i)
    ensures TestOpcode(Opcode(i)) <==> IsTestOp(i)
  {
  }

  lemma {:induction false} SimpleCountSnoc(c: seq<Instr>, i: Instr)
    ensures SimpleCount(c + [i])
      == if SimpleCount(c) < 0 then -1 else if IsCharOp(i) then SimpleCount(c) + 1 else if IsTestOp(i) then SimpleCount(c) else -1
  {
    if c == [] {
      assert c + [i] == [i] && [i][1..] == [];
    } else {
      assert (c + [i])[0] == c[0] && (c + [i])[1..] == c[1..] + [i];
      SimpleCountSnoc(c[1..], i);
    }
  }

  lemma {:induction false} SimpleCountPrefix(c: seq<Instr>, k: nat)
    requires k <= |c| && SimpleCount(c[..k]) < 0
    ensures SimpleCount(c) == -1
    decreases |c| - k
  {
    if k == |c| {
      assert c[..k] == c;
    } else {
      assert c[..k + 1] == c[..k] + [c[k]];
      SimpleCountSnoc(c[..k], c[k]);
      SimpleCountPrefix(c, k + 1);
    }
  }

  /** re_is_simple_quantifier. */
  method IsSimpleQuantifier(bytes: seq<byte>, ghost c: seq<Instr>) returns (count: int)
    requires AllEncodable(c) && bytes == Encode(c)
    ensures count == SimpleCount(c)
  {
    hide Encode, SimpleCount, Len, Size, Encodable, Opcode, BaseSize, Encode1;
    count := 0;
    var pos := 0;
    ghost var k := 0;
    EncodeLen(c);
    assert c[..0] == [];
    LenNil();
    CountNil();
    while pos < |bytes|
      invariant 0 <= k <= |c| && pos == Len(c[..k]) <= |bytes|
      invariant count == SimpleCount(c[..k]) >= 0
      decreases |c| - k
    {
      Within(c, k);
      ScanAt(bytes, c, k);
      OpcodeClasses(c[k]);
      assert c[..k + 1] == c[..k] + [c[k]];
      SimpleCountSnoc(c[..k], c[k]);
      var opcode := bytes[pos];
      var len := InstrLen(bytes, pos, c, k);
      if CharOpcode(opcode) {
        count := count + 1;
      } else if !TestOpcode(opcode) {
        SimpleCountPrefix(c, k + 1);
        return -1;
      }
      pos := pos + len;
      k := k + 1;
    }
    Within(c, k);
  }

  /** Exactly the positions inside the code are starts of instructions. */
  lemma Within(c: seq<Instr>, k: nat)
    requires k <= |c|
    ensures Len(c[..k]) < Len(c) <==> k < |c|
    ensures k == |c| ==> c[..k] == c
  {
    assert c[..|c|] == c;
    if k < |c| {
      assert c == c[..k] + c[k..];
      LenConcat(c[..k], c[k..]);
      assert c[k..] == [c[k]] + c[k + 1..];
      LenCons(c[k], c[k + 1..]);
    }
  }

  /** compute_stack_size: the largest depth, or -1 when it exceeds the limit. */
  method ComputeStackSize(bytes: seq<byte>, ghost c: seq<Instr>) returns (max: int)
    requires AllEncodable(c) && bytes == Encode(c) && Typed(c)
    ensures max == if MaxDepth(c) <= STACK_SIZE_MAX then MaxDepth(c) else -1
  {
    hide Encode, Len, Size, Encodable, BaseSize, Encode1, Depth, MaxDepth, AllEncodable;
    max := 0;
    var size := 0;
    var pos := 0;
    ghost var k := 0;
    EncodeLen(c);
    assert c[..0] == [];
    LenNil();
    DepthNil();
    MaxNil();
    while pos < |bytes|
      invariant 0 <= k <= |c| && pos == Len(c[..k]) <= |bytes|
      invariant size == Depth(c[..k]) && max == MaxDepth(c[..k]) <= STACK_SIZE_MAX && size <= max
      decreases |c| - k
    {
      Within(c, k);
      ScanAt(bytes, c, k);
      NextIndex(c, k);
      MaxNext(c, k);
      var opcode := bytes[pos];
      if opcode == 15 || opcode == 25 {
        size := size + 1;
        if size > max {
          if size > STACK_SIZE_MAX {
            MaxMonotone(c, k + 1);
            return -1;
          }
          max := size;
        }
      } else if opcode == 16 || opcode == 26 {
        assert TypedAt(c, k);
        assert size > 0;
        size := size - 1;
      }
      var len := InstrLen(bytes, pos, c, k);
      pos := pos + len;
      k := k + 1;
    }
    Within(c, k);
  }

  lemma MaxNil() ensures MaxDepth([]) == 0 {}

  lemma MaxNext(c: seq<Instr>, k: nat)
    requires k < |c|
    ensures var m, d := MaxDepth(c[..k]), Depth(c[..k + 1]);
      MaxDepth(c[..k + 1]) == if d > m then d else m
  {
    assert c[..k + 1][..k] == c[..k];
  }

  lemma {:induction false} MaxMonotone(c: seq<Instr>, k: nat)
    requires k <= |c|
    ensures MaxDepth(c[..k]) <= MaxDepth(c)
    decreases |c| - k
  {
    if k == |c| { assert c[..k] == c; } else { MaxNext(c, k); MaxMonotone(c, k + 1); }
  }

  /** The bit masks 1 and 2 of a capture_bitmap entry. */
  function Bits(w: bool, r: bool): int { (if w then 1 else 0) + (if r then 2 else 0) }

  function Or1(v: int): int { if v % 2 == 1 then v else v + 1 }
  function Or2(v: int): int { if v / 2 % 2 == 1 then v else v + 2 }

  predicate NeutralOpcode(op: int) {
    TestOpcode(op) || op == 15 || op == 25 || op == 16 || op == 27
  }

  /** State of the scan of re_check_advance after instruction `k`. */
  ghost predicate Scanned(c: seq<Instr>, k: nat, ret: int, refs: bool, bitmap: seq<int>)
    requires k <= |c|
  {
    && |bitmap| == CAPTURE_COUNT_MAX
    && (forall n :: 0 <= n < CAPTURE_COUNT_MAX ==> bitmap[n] == Bits(AnyWrites(c[..k], n), AnyRefers(c[..k], n)))
    && (refs <==> exists j :: 0 <= j < k && (c[j].BackReference? || c[j].BackwardBackReference?))
    && (ret == -2 || ret == 0 || ret == 1)
    && (ret == -2 <==> forall j :: 0 <= j < k ==> IsNeutralOp(c[j]))
    && (ret != -2 ==> (ret == 1 <==> ReadsFirst(c)))
  }

  lemma {:induction false} FirstDecides(c: seq<Instr>, k: nat)
    requires k < |c| && (forall j :: 0 <= j < k ==> IsNeutralOp(c[j])) && !IsNeutralOp(c[k])
    ensures ReadsFirst(c) <==> IsCharOp(c[k])
    decreases |c|
  {
    if k > 0 { FirstDecides(c[1..], k - 1); }
  }

  lemma {:induction false} NoneDecides(c: seq<Instr>)
    requires forall j :: 0 <= j < |c| ==> IsNeutralOp(c[j])
    ensures !ReadsFirst(c)
  {
    if c != [] { NoneDecides(c[1..]); }
  }

  predicate OpcodesBelow(c: seq<Instr>) {
    forall k :: 0 <= k < |c| ==>
      (c[k].SaveStart? || c[k].SaveEnd? || c[k].BackReference? || c[k].BackwardBackReference? ==> 0 <= c[k].n < CAPTURE_COUNT_MAX)
      && (c[k].SaveReset? ==> 0 <= c[k].first <= c[k].last < CAPTURE_COUNT_MAX)
  }

  lemma WritesNext(c: seq<Instr>, k: nat, n: int)
    requires k < |c|
    ensures AnyWrites(c[..k + 1], n) <==> AnyWrites(c[..k], n) || Writes(c[k], n)
    ensures AnyRefers(c[..k + 1], n) <==> AnyRefers(c[..k], n) || Refers(c[k], n)
  {
    var a, b := c[..k], c[..k + 1];
    if AnyWrites(a, n) { var j :| 0 <= j < |a| && Writes(a[j], n); assert b[j] == a[j]; }
    if AnyRefers(a, n) { var j :| 0 <= j < |a| && Refers(a[j], n); assert b[j] == a[j]; }
    assert b[k] == c[k];
    if AnyWrites(b, n) { var j :| 0 <= j < |b| && Writes(b[j], n); if j < k { assert a[j] == b[j]; } }
    if AnyRefers(b, n) { var j :| 0 <= j < |b| && Refers(b[j], n); if j < k { assert a[j] == b[j]; } }
  }

  /** The bitmap after one more instruction. */
  lemma ScannedNext(c: seq<Instr>, k: nat, ret: int, refs: bool, bitmap: seq<int>, ret': int, refs': bool, bitmap': seq<int>)
    requires k < |c| && Scanned(c, k, ret, refs, bitmap) && |bitmap'| == |bitmap|
    requires forall n :: 0 <= n < |bitmap| ==>
      bitmap'[n] == if Writes(c[k], n) then Or1(bitmap[n]) else if Refers(c[k], n) then Or2(bitmap[n]) else bitmap[n]
    requires refs' == (refs || c[k].BackReference? || c[k].BackwardBackReference?)
    requires ret' == if ret == -2 && !IsNeutralOp(c[k]) then (if IsCharOp(c[k]) then 1 else 0) else ret
    ensures Scanned(c, k + 1, ret', refs', bitmap')
  {
    hide AnyWrites, AnyRefers, ReadsFirst;
    forall n | 0 <= n < |bitmap'| ensures bitmap'[n] == Bits(AnyWrites(c[..k + 1], n), AnyRefers(c[..k + 1], n)) {
      WritesNext(c, k, n);
    }
    if ret == -2 && !IsNeutralOp(c[k]) { FirstDecides(c, k); }
  }

  /** re_check_advance. */
  method CheckAdvanceScan(bytes: seq<byte>, ghost c: seq<Instr>) returns (ret: int)
    requires AllEncodable(c) && bytes == Encode(c) && OpcodesBelow(c)
    ensures ret == CheckAdvance(c)
  {
    hide Encode, Len, Size, Encodable, BaseSize, ReadsFirst, Scanned, RefersToOwn, Encode1, Opcode;
    ret := -2;
    var refs := false;
    var bitmap := seq(CAPTURE_COUNT_MAX, i => 0);
    var pos := 0;
    ghost var k := 0;
    EncodeLen(c);
    assert c[..0] == [];
    LenNil();
    ScannedNone(c, bitmap);
    while pos < |bytes|
      invariant 0 <= k <= |c| && pos == Len(c[..k]) <= |bytes|
      invariant |bitmap| == CAPTURE_COUNT_MAX && Scanned(c, k, ret, refs, bitmap)
      decreases |c| - k
    {
      Within(c, k);
      ScanAt(bytes, c, k);
      OpcodeClasses(c[k]);
      var len := InstrLen(bytes, pos, c, k);
      var opcode := bytes[pos];
      ghost var old_ret, old_refs, old_map := ret, refs, bitmap;
      ScanOperands(bytes, pos, c[k]);
      if CharOpcode(opcode) {
        if ret == -2 { ret := 1; }
      } else if NeutralOpcode(opcode) {
      } else if opcode == 11 || opcode == 12 {
        var val := bytes[pos + 1];
        bitmap := bitmap[val := Or1(bitmap[val])];
      } else if opcode == 13 {
        bitmap := MarkRange(bitmap, bytes[pos + 1], bytes[pos + 2]);
      } else if opcode == 19 || opcode == 20 {
        var val := bytes[pos + 1];
        bitmap := bitmap[val := Or2(bitmap[val])];
        refs := true;
      } else {
        if ret == -2 { ret := 0; }
      }
      ScannedNext(c, k, old_ret, old_refs, old_map, ret, refs, bitmap);
      pos := pos + len;
      k := k + 1;
    }
    Within(c, k);
    if refs {
      var own := FindThree(bitmap);
      OwnReference(c, ret, refs, bitmap);
      if own { return -1; }
    } else {
      NoReference(c, ret, bitmap);
    }
    Decided(c, ret, refs, bitmap);
    if ret == -2 { ret := 0; }
  }

  lemma ScannedNone(c: seq<Instr>, bitmap: seq<int>)
    requires |bitmap| == CAPTURE_COUNT_MAX && forall n :: 0 <= n < |bitmap| ==> bitmap[n] == 0
    ensures Scanned(c, 0, -2, false, bitmap)
  {
  }

  /** The operand bytes and the opcode tell what the scan needs to know. */
  lemma ScanOperands(bytes: seq<byte>, pos: nat, i: Instr)
    requires Encodable(i) && pos + Size(i) <= |bytes| && (forall b: nat :: b < Size(i) ==> bytes[pos + b] == Encode1(i)[b])
    ensures 11 <= Opcode(i) <= 13 || Opcode(i) == 19 || Opcode(i) == 20 ==> pos + 1 < |bytes|
    ensures Opcode(i) == 13 ==> pos + 2 < |bytes|
    ensures Opcode(i) == 11 || Opcode(i) == 12 ==> (i.SaveStart? || i.SaveEnd?) && bytes[pos + 1] == i.n
    ensures Opcode(i) == 13 ==> i.SaveReset? && bytes[pos + 1] == i.first && bytes[pos + 2] == i.last
    ensures Opcode(i) == 19 || Opcode(i) == 20 <==> i.BackReference? || i.BackwardBackReference?
    ensures Opcode(i) == 19 || Opcode(i) == 20 ==> bytes[pos + 1] == i.n
    ensures IsNeutralOp(i) <==> NeutralOpcode(Opcode(i)) || 11 <= Opcode(i) <= 13 || Opcode(i) == 19 || Opcode(i) == 20
    ensures forall n :: Writes(i, n) ==> 11 <= Opcode(i) <= 13
    ensures forall n :: Refers(i, n) ==> Opcode(i) == 19 || Opcode(i) == 20
  {
    if i.SaveStart? || i.SaveEnd? || i.BackReference? || i.BackwardBackReference? { assert Encode1(i)[1] == i.n; }
    if i.SaveReset? { assert Encode1(i)[1] == i.first && Encode1(i)[2] == i.last; }
  }

  /** Mark the captures first .. last - 1 as written. */
  method MarkRange(bitmap: seq<int>, first: int, last: int) returns (m: seq<int>)
    requires 0 <= first && last <= |bitmap|
    ensures |m| == |bitmap|
    ensures forall n :: 0 <= n < |bitmap| ==> m[n] == if first <= n < last then Or1(bitmap[n]) else bitmap[n]
  {
    m := bitmap;
    var val := first;
    while val < last
      invariant first <= val && |m| == |bitmap|
      invariant forall n :: 0 <= n < |bitmap| ==> m[n] == if first <= n < val && n < last then Or1(bitmap[n]) else bitmap[n]
    {
      m := m[val := Or1(m[val])];
      val := val + 1;
    }
  }

  method FindThree(bitmap: seq<int>) returns (found: bool)
    ensures found <==> exists n :: 0 <= n < |bitmap| && bitmap[n] == 3
  {
    for i := 0 to |bitmap|
      invariant forall n :: 0 <= n < i ==> bitmap[n] != 3
    {
      if bitmap[i] == 3 { return true; }
    }
    found := false;
  }

  lemma OwnReference(c: seq<Instr>, ret: int, refs: bool, bitmap: seq<int>)
    requires Scanned(c, |c|, ret, refs, bitmap)
    ensures (exists n :: 0 <= n < |bitmap| && bitmap[n] == 3) <==> RefersToOwn(c)
  {
    hide AnyWrites, AnyRefers, ReadsFirst;
    assert c[..|c|] == c;
    if n :| 0 <= n < |bitmap| && bitmap[n] == 3 { assert AnyWrites(c, n) && AnyRefers(c, n); }
    if RefersToOwn(c) {
      var n :| 0 <= n < CAPTURE_COUNT_MAX && AnyWrites(c, n) && AnyRefers(c, n);
      assert bitmap[n] == 3;
    }
  }

  lemma NoReference(c: seq<Instr>, ret: int, bitmap: seq<int>)
    requires Scanned(c, |c|, ret, false, bitmap)
    ensures !RefersToOwn(c)
  {
    hide AnyWrites, ReadsFirst;
    assert forall n :: !AnyRefers(c, n);
  }

  lemma Decided(c: seq<Instr>, ret: int, refs: bool, bitmap: seq<int>)
    requires Scanned(c, |c|, ret, refs, bitmap)
    ensures ret == 1 <==> ReadsFirst(c)
    ensures ret == -2 || ret == 0 || ret == 1
  {
    if ret == -2 { NoneDecides(c); }
  }
}
