/** The range opcodes: a binary search in the table that follows the opcode. */
module RegexRange {
  import opened Bytes
  import opened Bytecode
  import opened RegexMachine
  import opened RegexInvariant

  /** Above a missed range nothing smaller matches, below it nothing larger. */
  lemma RangeMissed(p: seq<int>, c: int, idx: nat)
    requires SortedBounds(p) && |p| % 2 == 0 && idx < |p| / 2
    ensures c < p[2 * idx] ==> forall i :: idx <= i < |p| / 2 ==> c < p[2 * i]
    ensures c > p[2 * idx + 1] ==> forall i :: 0 <= i <= idx ==> c > p[2 * i + 1]
  {
    forall i | idx <= i < |p| / 2 && c < p[2 * idx] ensures c < p[2 * i] {
      assert 2 * idx == 2 * i || 2 * idx < 2 * i;
    }
    forall i | 0 <= i <= idx && c > p[2 * idx + 1] ensures c > p[2 * i + 1] {
      assert 2 * i + 1 == 2 * idx + 1 || 2 * i + 1 < 2 * idx + 1;
    }
  }

  function Bound(bytes: seq<byte>, at: int, wide: bool, k: nat): int
    requires 0 <= at && at + (if wide then 4 else 2) * (k + 1) <= |bytes|
  {
    if wide then GetU32(bytes, at + 4 * k) else GetU16(bytes, at + 2 * k)
  }

  function Table(bytes: seq<byte>, at: int, wide: bool, n: nat): (p: seq<int>)
    requires 0 <= at && at + (if wide then 4 else 2) * n <= |bytes|
    ensures |p| == n
  {
    if wide then ReadU32s(bytes, at, n) else ReadU16s(bytes, at, n)
  }

  /** REOP_range and REOP_range32 for `n` ranges at `at`: the search decides
      membership, and its unsigned upper index never wraps below zero. */
  method RangeSearch(bytes: seq<byte>, at: int, wide: bool, n: nat, c: int) returns (hit: bool)
    requires 0 <= at && at + (if wide then 8 else 4) * n <= |bytes| && n >= 1
    requires SortedBounds(Table(bytes, at, wide, 2 * n))
    ensures var p := Table(bytes, at, wide, 2 * n);
      hit <==> (!wide && c >= 0xffff && p[2 * n - 1] == 0xffff) || InBounds(p, c)
  {
    hide Table, Bound, SortedBounds;
    ghost var p := Table(bytes, at, wide, 2 * n);
    BoundIs(bytes, at, wide, 2 * n, 0);
    BoundIs(bytes, at, wide, 2 * n, 2 * n - 1);
    var low := Bound(bytes, at, wide, 0);
    var lo, hi := 0, n - 1;
    var high := Bound(bytes, at, wide, 2 * hi + 1);
    RangeMissed(p, c, 0);
    RangeMissed(p, c, hi);
    SortedEnds(p);
    if c < low { return false; }
    if !wide && c >= 0xffff && high == 0xffff { return true; }
    if c > high { return false; }
    while lo <= hi
      invariant 0 <= lo <= hi + 1 <= n
      invariant forall i :: 0 <= i < lo ==> c > p[2 * i + 1]
      invariant forall i :: hi < i < n ==> c < p[2 * i]
    {
      var idx := (lo + hi) / 2;
      BoundIs(bytes, at, wide, 2 * n, 2 * idx);
      BoundIs(bytes, at, wide, 2 * n, 2 * idx + 1);
      low := Bound(bytes, at, wide, 2 * idx);
      high := Bound(bytes, at, wide, 2 * idx + 1);
      RangeMissed(p, c, idx);
      if c < low {
        assert idx >= 1;
        hi := idx - 1;
      } else if c > high {
        lo := idx + 1;
      } else {
        return true;
      }
    }
    hit := false;
  }

  lemma BoundIs(bytes: seq<byte>, at: int, wide: bool, n: nat, k: nat)
    requires 0 <= at && at + (if wide then 4 else 2) * n <= |bytes| && k < n
    ensures at + (if wide then 4 else 2) * (k + 1) <= |bytes| && Bound(bytes, at, wide, k) == Table(bytes, at, wide, n)[k]
  {
  }

  lemma SortedEnds(p: seq<int>)
    requires SortedBounds(p) && |p| >= 2
    ensures p[0] <= p[|p| - 1]
  {
  }
}

/** lre_exec_backtrack as the loop it is: registers, a capture array, a counter
    stack in an array of the size found by the compiler, and a stack of saved
    states. */
module RegexExec {
  import opened Bytes
  import opened RegexSyntax
  import opened RegexSemantics
  import opened Bytecode
  import opened RegexEmit
  import opened RegexMachine
  import opened RegexStates
  import opened RegexGreedy
  import opened RegexCorrectness
  import opened RegexTyping
  import opened RegexInvariant
  import opened RegexAnalysis
  import opened RegexProgram
  import opened RegexMain
  import opened RegexRange

  /** How an opcode ends: go on, `goto no_match`, or `match`. */
  datatype Mode = Go | Miss | Hit

  lemma MaxOfConcat(d: seq<Instr>)
    ensures MaxDepth(d + [Match]) == MaxDepth(d) && MaxDepth(d) >= 0
  {
    assert (d + [Match])[..|d|] == d;
    DepthConcat(d, [Match]);
    Depth1(Match);
    MaxDepthBounds(d, |d|);
    MaxDepthBounds(d, 0);
    assert d[..|d|] == d && d[..0] == [];
  }

  /** The stack array is large enough wherever the machine may be. */
  lemma PlaceBound(m: Image, pc: int, depth: int)
    requires Place(m, pc, depth)
    ensures depth <= MaxDepth(m.d)
  {
    var k: nat :| PlaceAt(m, pc, depth, k);
    MaxDepthBounds(m.d, k);
  }

  class Machine {
    const x: Ctx
    const bytes: seq<byte>
    const capture: array<int>
    const stack: array<int>
    ghost const m: Image
    var pc: int
    var cptr: nat
    var stackLen: nat
    const store: StateStack

    ghost predicate Shape()
      reads this, store, store.mem
    {
      && capture != stack && stackLen <= stack.Length
      && store.Valid() && store.captures == capture.Length && store.depth == stack.Length && store.mem != capture && store.mem != stack
      && m.x == x && m.code == Load(bytes) && stack.Length == MaxDepth(m.d) && capture.Length == 2 * m.nc
    }

    ghost function Abs(mode: Mode): State
      reads this, store, capture, stack
      requires stackLen <= stack.Length
    {
      match mode
      case Go => Run(pc, cptr, capture[..], stack[..stackLen], store.contents)
      case Miss => Fail(store.contents)
      case Hit => Succeed(capture[..], store.contents)
    }

    constructor (x: Ctx, bytes: seq<byte>, captureCount: nat, stackSize: nat, start: nat, ghost m: Image)
      requires m.x == x && m.code == Load(bytes) && MaxDepth(m.d) == stackSize && captureCount == m.nc
      ensures this.x == x && this.bytes == bytes && this.m == m && Shape() && fresh(capture) && fresh(stack) && fresh(store) && fresh(store.mem)
      ensures Abs(Go) == Run(HEADER_LEN, start, Nulls(2 * captureCount), [], [])
    {
      this.x, this.bytes, this.m := x, bytes, m;
      capture := new int[2 * captureCount](i => -1);
      stack := new int[stackSize];
      store := new StateStack(2 * captureCount, stackSize);
      pc, cptr, stackLen := HEADER_LEN, start, 0;
      new;
      assert capture[..] == Nulls(2 * captureCount);
    }

    /** push_state with the current captures and counter stack. */
    method PushState(kind: Kind, at: int, pos: nat, count: nat)
      requires Shape()
      modifies store, store.mem
      ensures Shape() && store.contents == old(store.contents) + [Saved(kind, at, pos, capture[..], stack[..stackLen], count)]
      ensures store.mem == old(store.mem) || fresh(store.mem)
    {
      store.Push(kind, at, pos, capture, stack, stackLen, count);
    }

    /** Whether the character opcode at `at` accepts `ch`. */
    method AcceptsAt(at: int, ch: int, ghost i: Instr) returns (hit: bool)
      requires Fetch(bytes, at) == Got(i) && IsCharOp(i) && CapOp(i, m.nc)
      ensures hit <==> CharOp(x, i, ch)
    {
      var opcode := bytes[at];
      var c := Fold(x.env, ch);
      if opcode == 1 {
        hit := c == GetU16(bytes, at + 1);
      } else if opcode == 2 {
        hit := c == GetU32(bytes, at + 1);
      } else if opcode == 3 {
        hit := !IsLineTerminator(ch);
      } else if opcode == 4 {
        hit := true;
      } else {
        var n := GetU16(bytes, at + 1);
        hit := RangeSearch(bytes, at + 3, opcode == 22, n, c);
      }
    }

    method TestAt(at: int, pos: nat, ghost i: Instr) returns (hit: bool)
      requires Fetch(bytes, at) == Got(i) && IsTestOp(i)
      ensures hit <==> TestOp(x, i, pos)
    {
      var opcode := bytes[at];
      if opcode == 5 {
        hit := AtLineStart(x, pos);
      } else if opcode == 6 {
        hit := AtLineEnd(x, pos);
      } else {
        var v1, v2 := WordBefore(x, pos), WordAfter(x, pos);
        hit := if opcode == 17 then v1 != v2 else v1 == v2;
      }
    }

    /** Size of a fetched character or test opcode. */
    method SizeAt(at: int, ghost i: Instr) returns (n: nat)
      requires Fetch(bytes, at) == Got(i) && (IsCharOp(i) || IsTestOp(i))
      ensures n == Size(i)
    {
      var opcode := bytes[at];
      n := BaseSize(opcode);
      if opcode == 21 { n := n + 4 * GetU16(bytes, at + 1); }
      if opcode == 22 { n := n + 8 * GetU16(bytes, at + 1); }
    }

    /** The recursive call with no_recurse set, on the atom at `at`. */
    method RunAtom(at: int, pos: nat) returns (o: Outcome)
      requires m.code == Load(bytes) && m.x == x && AtomOps(at, m)
      ensures o == AtomRun(x, m.code, at, pos)
      decreases |bytes| - at
    {
      hide Fetch, CharOp, TestOp, CapOp, Opcode;
      ghost var i := AtomHead(at, m, bytes);
      OpcodeClassesAt(bytes, at, i);
      AtomRunUnfold(x, m.code, at, pos, i);
      var opcode := bytes[at];
      if opcode == 10 { return Reached(pos); }
      var size := SizeAt(at, i);
      if CharOpcode(opcode) {
        if pos >= |x.text| { return Missed; }
        var hit := AcceptsAt(at, x.text[pos], i);
        if !hit { return Missed; }
        o := RunAtom(at + size, pos + 1);
      } else {
        var hit := TestAt(at, pos, i);
        if !hit { return Missed; }
        o := RunAtom(at + size, pos);
      }
    }

    /** goto, the two splits and the two lookaheads. */
    method ExecJump(ghost i: Instr)
      requires Shape() && Fetch(bytes, pc) == Got(i)
      requires i.Goto? || i.SplitGotoFirst? || i.SplitNextFirst? || i.Lookahead? || i.NegativeLookahead?
      modifies this`pc, store, store.mem
      ensures store.mem == old(store.mem) || fresh(store.mem)
      ensures Shape() && Abs(Go) == StepInstr(x, m.code, old(Abs(Go)), i)
    {
      hide StateStack.Valid, MaxDepth, Load;
      JumpFields(bytes, pc, i);
      hide Fetch;
      var opcode := bytes[pc];
      var val := GetDisp(bytes, pc + 1);
      pc := pc + 5;
      if opcode == 7 {
        pc := pc + val;
      } else if opcode == 8 {
        PushState(SplitState, pc, cptr, 0);
        pc := pc + val;
      } else if opcode == 9 {
        PushState(SplitState, pc + val, cptr, 0);
      } else {
        PushState(if opcode == 23 then LookState else NegLookState, pc + val, cptr, 0);
      }
    }

    /** push_i32 and push_char_pos. */
    method ExecPush(ghost i: Instr)
      requires Shape() && Fetch(bytes, pc) == Got(i) && (i.PushI32? || i.PushCharPos?) && stackLen < stack.Length
      modifies this`pc, this`stackLen, stack
      ensures Shape() && Abs(Go) == StepInstr(x, m.code, old(Abs(Go)), i)
    {
      hide StateStack.Valid, MaxDepth;
      ghost var before := stack[..stackLen];
      if bytes[pc] == 15 {
        stack[stackLen] := GetU32(bytes, pc + 1);
        pc := pc + 5;
      } else {
        stack[stackLen] := cptr;
        pc := pc + 1;
      }
      stackLen := stackLen + 1;
      assert stack[..stackLen] == before + [stack[stackLen - 1]];
    }

    /** drop and bne_char_pos. */
    method ExecPop(ghost i: Instr)
      requires Shape() && Fetch(bytes, pc) == Got(i) && (i.Drop? || i.BneCharPos?) && stackLen >= 1
      modifies this`pc, this`stackLen
      ensures Shape() && Abs(Go) == StepInstr(x, m.code, old(Abs(Go)), i)
    {
      hide StateStack.Valid, MaxDepth;
      ghost var before := stack[..stackLen];
      stackLen := stackLen - 1;
      if bytes[pc] == 16 {
        pc := pc + 1;
      } else {
        var val := GetDisp(bytes, pc + 1);
        pc := pc + 5;
        if stack[stackLen] != cptr { pc := pc + val; }
      }
      assert stack[..stackLen] == Pop(before) && stack[stackLen] == Top(before);
    }

    method ExecLoop(ghost i: Instr)
      requires Shape() && Fetch(bytes, pc) == Got(i) && i.Loop? && stackLen >= 1
      modifies this`pc, stack
      ensures Shape() && Abs(Go) == StepInstr(x, m.code, old(Abs(Go)), i)
    {
      ghost var before := stack[..stackLen];
      var val := GetDisp(bytes, pc + 1);
      pc := pc + 5;
      stack[stackLen - 1] := stack[stackLen - 1] - 1;
      if stack[stackLen - 1] != 0 { pc := pc + val; }
      assert stack[..stackLen] == Pop(before) + [Top(before) - 1];
    }

    method ExecSave(ghost i: Instr)
      requires Shape() && Fetch(bytes, pc) == Got(i) && CapOp(i, m.nc)
      requires i.SaveStart? || i.SaveEnd? || i.SaveReset?
      modifies this`pc, capture
      ensures Shape() && Abs(Go) == StepInstr(x, m.code, old(Abs(Go)), i)
    {
      hide StateStack.Valid, MaxDepth;
      ghost var before := capture[..];
      var opcode := bytes[pc];
      var val := bytes[pc + 1] as int;
      if opcode == 13 {
        var val2 := bytes[pc + 2] as int;
        var first := val;
        while val <= val2
          modifies capture
          invariant first <= val <= val2 + 1
          invariant forall k :: 0 <= k < capture.Length ==> capture[k] == if 2 * first <= k < 2 * val then -1 else before[k]
        {
          capture[2 * val] := -1;
          capture[2 * val + 1] := -1;
          val := val + 1;
        }
        pc := pc + 3;
        assert capture[..] == ResetCaps(before, first, val2);
      } else {
        var slot := 2 * val + (if opcode == 11 then 0 else 1);
        capture[slot] := cptr;
        pc := pc + 2;
        assert capture[..] == before[slot := cptr];
      }
    }

    /** back_reference and backward_back_reference. */
    method ExecBackRef(ghost i: Instr) returns (mode: Mode)
      requires Shape() && Fetch(bytes, pc) == Got(i) && (i.BackReference? || i.BackwardBackReference?)
      requires cptr <= |x.text| && CapsIn(m, capture[..])
      modifies this`pc, this`cptr
      ensures Shape() && mode != Hit && Abs(mode) == StepBackRef(x, old(Abs(Go)), i.BackwardBackReference?, i.n, old(pc) + 2)
    {
      hide CopyForward, CopyBackward, MaxDepth, Load;
      var opcode := bytes[pc];
      var val := bytes[pc + 1] as int;
      ghost var caps := capture[..];
      if 2 * val + 1 >= capture.Length { return Miss; }
      var start, end := capture[2 * val], capture[2 * val + 1];
      assert caps[2 * val] == start && caps[2 * val + 1] == end;
      pc := pc + 2;
      if start < 0 || end < 0 { return Go; }
      var o;
      if opcode == 19 { o := CompareForward(start, end); } else { o := CompareBackward(start, end); }
      if !o.Reached? { return Miss; }
      cptr := o.pos;
      mode := Go;
    }

    method CompareForward(start: nat, end: nat) returns (o: Outcome)
      requires cptr <= |x.text| && end <= |x.text|
      ensures o == CopyForward(x, start, end, cptr) && !o.Crashed?
    {
      var p, pos := start, cptr;
      while p < end
        invariant start <= p && 0 <= pos <= |x.text|
        invariant CopyForward(x, p, end, pos) == CopyForward(x, start, end, cptr)
        decreases end - p
      {
        if pos >= |x.text| { return Missed; }
        if Fold(x.env, x.text[p]) != Fold(x.env, x.text[pos]) { return Missed; }
        p, pos := p + 1, pos + 1;
      }
      o := Reached(pos);
    }

    method CompareBackward(start: nat, end: nat) returns (o: Outcome)
      requires cptr <= |x.text| && end <= |x.text|
      ensures o == CopyBackward(x, start, end, cptr) && !o.Crashed?
    {
      var p, pos := end, cptr;
      while p > start
        invariant p <= end && 0 <= pos <= |x.text|
        invariant CopyBackward(x, start, p, pos) == CopyBackward(x, start, end, cptr)
        decreases p - start
      {
        if pos == 0 { return Missed; }
        if Fold(x.env, x.text[p - 1]) != Fold(x.env, x.text[pos - 1]) { return Missed; }
        p, pos := p - 1, pos - 1;
      }
      o := Reached(pos);
    }

    /** simple_greedy_quant: run the atom as often as possible. */
    method ExecGreedy(ghost i: Instr) returns (mode: Mode)
      requires Shape() && Fetch(bytes, pc) == Got(i) && i.SimpleGreedyQuant? && AtomOps(pc + 17, m)
      requires !GreedyRun(x, m.code, pc + 17, cptr, 0, i.qmax).Broken?
      modifies this`pc, this`cptr, store, store.mem
      ensures store.mem == old(store.mem) || fresh(store.mem)
      ensures Shape() && mode != Hit && Abs(mode) == StepInstr(x, m.code, old(Abs(Go)), i)
    {
      hide StepInstr, GreedyRun, AtomOps, Fetch, GetU32, GetDisp, Load, MaxDepth, StateStack.Valid;
      GreedyFields(bytes, pc, i);
      GreedyStep(x, m.code, Abs(Go), i);
      var nextPos := GetDisp(bytes, pc + 1);
      var quantMin, quantMax := GetU32(bytes, pc + 5), GetU32(bytes, pc + 9);
      pc := pc + 17;
      var pc1 := pc;
      pc := pc + nextPos;
      var q, end := Repeat(pc1, quantMax);
      if q < quantMin { return Miss; }
      cptr := end;
      if q > quantMin {
        PushState(GreedyState, pc1 - 16, cptr, q - quantMin);
      }
      mode := Go;
    }

    /** The loop of simple_greedy_quant. */
    method Repeat(pc1: int, quantMax: int) returns (q: nat, pos: nat)
      requires m.code == Load(bytes) && m.x == x && AtomOps(pc1, m)
      requires !GreedyRun(x, m.code, pc1, cptr, 0, quantMax).Broken?
      ensures GreedyRun(x, m.code, pc1, cptr, 0, quantMax) == Times(q, pos)
    {
      hide GreedyRun, AtomRun, AtomOps;
      q, pos := 0, cptr;
      ghost var want := GreedyRun(x, m.code, pc1, cptr, 0, quantMax);
      while true
        invariant GreedyRun(x, m.code, pc1, pos, q, quantMax) == want
        decreases Room(x, false, pos)
      {
        GreedyRunUnfold(x, m.code, pc1, pos, q, quantMax);
        var res := RunAtom(pc1, pos);
        if !res.Reached? { return; }
        pos := res.pos;
        q := q + 1;
        if q >= quantMax && quantMax != INF { return; }
      }
    }

    /** One opcode. */
    method Execute() returns (mode: Mode)
      requires Shape() && Loaded(m) && Inv(m, Abs(Go))
      modifies this`pc, this`cptr, this`stackLen, capture, stack, store, store.mem
      ensures store.mem == old(store.mem) || fresh(store.mem)
      ensures Shape() && Abs(mode) == Step(x, m.code, old(Abs(Go)))
    {
      hide Fetch, StepInstr, Loaded, AllSavedIn, Opcode, Exits, AtomOps, GreedyRun, CapOp, MaxDepth;
      ghost var s := Abs(Go);
      ghost var i := Located(m, s);
      OpcodeOf(bytes, pc, i);
      var opcode := bytes[pc];
      if opcode == 10 {
        MatchStep(x, m.code, s);
        return Hit;
      } else if CharOpcode(opcode) || TestOpcode(opcode) {
        mode := ExecSimple(i);
      } else if opcode == 19 || opcode == 20 {
        BackRefStep(x, m.code, s, i);
        mode := ExecBackRef(i);
      } else if opcode == 28 {
        mode := ExecGreedy(i);
      } else if opcode == 27 {
        PrevStep(x, m.code, s);
        if cptr == 0 { return Miss; }
        cptr := cptr - 1;
        pc := pc + 1;
        mode := Go;
      } else if 11 <= opcode <= 13 {
        ExecSave(i);
        mode := Go;
      } else if opcode == 7 || opcode == 8 || opcode == 9 || opcode == 23 || opcode == 24 {
        ExecJump(i);
        mode := Go;
      } else if opcode == 14 {
        ExecLoop(i);
        mode := Go;
      } else if opcode == 15 || opcode == 25 {
        ExecPush(i);
        mode := Go;
      } else {
        ExecPop(i);
        mode := Go;
      }
    }

    method ExecSimple(ghost i: Instr) returns (mode: Mode)
      requires Shape() && Fetch(bytes, pc) == Got(i) && (IsCharOp(i) || IsTestOp(i)) && CapOp(i, m.nc)
      modifies this`pc, this`cptr
      ensures Shape() && mode != Hit && Abs(mode) == StepInstr(x, m.code, old(Abs(Go)), i)
    {
      hide Fetch, CharOp, TestOp, CapOp;
      OpcodeClassesAt(bytes, pc, i);
      var size := SizeAt(pc, i);
      if CharOpcode(bytes[pc]) {
        if cptr >= |x.text| { return Miss; }
        var hit := AcceptsAt(pc, x.text[cptr], i);
        if !hit { return Miss; }
        cptr := cptr + 1;
      } else {
        var hit := TestAt(pc, cptr, i);
        if !hit { return Miss; }
      }
      pc := pc + size;
      mode := Go;
    }

    /** pop_state and pop_state1, up to the removal of the record. */
    method Restore(withCaptures: bool)
      requires Shape() && store.len > 0
      modifies this`pc, this`cptr, this`stackLen, capture, stack
      ensures var t := Top(store.contents);
        && Shape() && pc == t.pc && cptr == t.pos && stack[..stackLen] == t.stack
        && capture[..] == if withCaptures then t.caps else old(capture[..])
    {
      hide StateStack.Valid, MaxDepth;
      if withCaptures { store.CopyCaptures(capture); }
      ghost var caps := capture[..];
      var _, n, _, pos, at := store.Peek();
      pc, cptr, stackLen := at, pos, n;
      store.CopyCounters(stack, n);
      assert capture[..] == caps;
    }

    /** One round of the unwinding loop. */
    method Unwound(ret: bool) returns (next: Mode)
      requires Shape() && Loaded(m) && store.len != 0 && Inv(m, Abs(if ret then Hit else Miss))
      modifies this`pc, this`cptr, this`stackLen, capture, stack, store, store.mem
      ensures store.mem == old(store.mem) || fresh(store.mem)
      ensures Shape() && Abs(next) == Step(x, m.code, old(Abs(if ret then Hit else Miss)))
      ensures next != Go ==> store.len < old(store.len)
    {
      hide Loaded, Inv, MaxDepth, Records, Step, SavedIn;
      ghost var s, saved := Abs(if ret then Hit else Miss), store.contents;
      TopIn(m, s);
      UnwindStep(x, m.code, s);
      var kind, _, _, _, _ := store.Peek();
      if kind == GreedyState && !ret {
        StepBack();
        next := Go;
      } else if (kind == SplitState && !ret) || (kind == LookState && ret) || (kind == NegLookState && !ret) {
        Restore(kind != LookState);
        store.Drop();
        next := Go;
      } else {
        store.Drop();
        next := if kind == SplitState || kind == GreedyState then Hit else Miss;
      }
    }

    /** One iteration of a greedy loop less. */
    method StepBack()
      requires Shape() && Loaded(m) && store.len != 0 && SavedIn(m, Top(store.contents)) && Top(store.contents).kind.GreedyState?
      modifies this`pc, this`cptr, this`stackLen, capture, stack, store, store.mem
      ensures store.mem == old(store.mem) && Shape() && Abs(Go) == Unwind(m.code, old(store.contents))
    {
      hide Loaded, Fetch, MaxDepth, SavedIn, Records, Load, GetU32, GetDisp, Unwind;
      ghost var t := Top(store.contents);
      ghost var i := GreedyAt(m, t, bytes);
      GreedyUnwind(m.code, store.contents, i);
      Restore(true);
      var _, _, count, _, _ := store.Peek();
      var charCount := GetU32(bytes, pc + 12);
      cptr := cptr - charCount;
      pc := pc + 16 + GetDisp(bytes, pc);
      store.Lower(cptr, count - 1);
      if count - 1 == 0 { store.Drop(); }
    }
  }

  /** The last saved state is in order. */
  lemma TopIn(m: Image, s: State)
    requires Inv(m, s) && (s.Fail? || s.Succeed?) && s.saved != []
    ensures SavedIn(m, Top(s.saved)) && |Top(s.saved).caps| == 2 * m.nc
  {
    hide Place;
  }

  lemma GreedyUnwind(code: Code, saved: seq<Saved>, i: Instr)
    requires saved != [] && Top(saved).kind.GreedyState? && code.fetch(Top(saved).pc - 1) == Got(i) && i.SimpleGreedyQuant?
    requires Top(saved).count >= 1 && Top(saved).pos >= i.count >= 0
    ensures var t, rest := Top(saved), Pop(saved);
      Unwind(code, saved) == Run(t.pc + 16 + i.off, t.pos - i.count, t.caps, t.stack,
        if t.count == 1 then rest else rest + [t.(pos := t.pos - i.count, count := t.count - 1)])
  {
  }

  lemma UnwindStep(x: Ctx, code: Code, s: State)
    requires (s.Fail? || s.Succeed?) && s.saved != []
    ensures var t, rest := Top(s.saved), Pop(s.saved);
      Step(x, code, s) ==
        if s.Fail? then
          if t.kind.GreedyState? then Unwind(code, s.saved)
          else if t.kind.LookState? then Fail(rest) else Run(t.pc, t.pos, t.caps, t.stack, rest)
        else
          if t.kind.LookState? then Run(t.pc, t.pos, s.caps, t.stack, rest)
          else if t.kind.NegLookState? then Fail(rest) else Succeed(s.caps, rest)
  {
  }

  /** A halted machine stays halted. */
  lemma {:induction false} HaltedStays(x: Ctx, code: Code, s: State, n: nat)
    requires s.NoMatch? || s.Matched?
    ensures Steps(x, code, s, n) == s
    decreases n
  {
    if n > 0 { HaltedStays(x, code, s, n - 1); }
  }

  /** A machine that is still running has not reached its last step. */
  lemma StillRunning(x: Ctx, code: Code, s: State, n: nat, last: nat)
    requires var v := Steps(x, code, s, last); v.NoMatch? || v.Matched?
    requires var t := Steps(x, code, s, n); !t.NoMatch? && !t.Matched?
    ensures n < last
  {
    hide Steps;
    if n >= last {
      StepsAdd(x, code, s, last, n - last);
      HaltedStays(x, code, Steps(x, code, s, last), n - last);
    }
  }

  lemma OneMore(x: Ctx, code: Code, s: State, n: nat)
    ensures Steps(x, code, s, n + 1) == Step(x, code, Steps(x, code, s, n))
  {
    hide Step;
    StepsAdd(x, code, s, n, 1);
    var t := Steps(x, code, s, n);
    assert Steps(x, code, t, 1) == Steps(x, code, Step(x, code, t), 0);
  }

  /** lre_exec: for every compiled and supported pattern, every subject and every
      start position, the loop ends, and it returns the captures of the first
      match of the leftmost attempt that has one, or reports that there is none. */
  method LreExec(x: Ctx, bytes: seq<byte>, start: nat, ghost r: Node, ghost flags: byte) returns (matched: bool, caps: seq<int>)
    requires WellFormed(r) && WellFormedCtx(x) && Supported(x, false, r, 1) && start <= |x.text|
    requires FlagsMatch(flags, x.env) && IsImage(bytes, flags, x.env, r)
    ensures var found := Found(x, r, Res(start, Nulls(2 * (1 + NCaps(r)))));
      && (matched <==> found != [])
      && (matched ==> caps == found[0].caps)
    ensures matched ==> Captured(x, r, start, caps)
  {
    hide Captured, Steps, Step, Inv, Loaded, Found, Results, WellFormed, WellFormedCtx, Supported, Lies, Encode, Program, AllEncodable, MaxDepth, Machine.Abs;
    ghost var d := ProgramBody(x.env, r);
    ghost var m := Image(x, Load(bytes), HEADER_LEN, d, 1 + NCaps(r));
    var captureCount, stackSize := bytes[1], bytes[2];
    ProgramIs(x.env, r);
    MaxOfConcat(d);
    ProgramLoaded(x, bytes, HEADER_LEN, r);
    var e := new Machine(x, bytes, captureCount, stackSize, start, m);
    ghost var s0, first := e.Abs(Go), Res(start, Nulls(2 * (1 + NCaps(r))));
    InitIn(m, s0);
    RunsToFirstMatch(x, bytes, HEADER_LEN, r, first);
    ghost var verdict := Verdict(Found(x, r, first));
    ghost var last: nat :| Steps(x, Load(bytes), s0, last) == verdict;
    ghost var n := 0;
    var mode := Go;
    StepsNone(x, m.code, s0);
    while mode == Go || e.store.len != 0
      invariant e.m == m && e.x == x && e.bytes == bytes && e.Shape() && fresh(e) && fresh(e.capture) && fresh(e.stack) && fresh(e.store) && fresh(e.store.mem)
      invariant Steps(x, m.code, s0, n) == e.Abs(mode) && Inv(m, e.Abs(mode))
      decreases last - n
    {
      NotHalted(e, mode);
      StillRunning(x, m.code, s0, n, last);
      OneMore(x, m.code, s0, n);
      StepKeeps(m, e.Abs(mode));
      if mode == Go {
        mode := e.Execute();
      } else {
        mode := e.Unwound(mode == Hit);
      }
      n := n + 1;
    }
    OneMore(x, m.code, s0, n);
    NotHalted(e, mode);
    StillRunning(x, m.code, s0, n, last);
    FinalStep(e, mode);
    LastStep(x, m.code, s0, n + 1, last);
    matched := mode == Hit;
    caps := e.capture[..];
    FoundCaptures(x, r, start);
  }

  lemma StepsNone(x: Ctx, code: Code, s: State)
    ensures Steps(x, code, s, 0) == s
  {
  }

  lemma NotHalted(e: Machine, mode: Mode)
    requires e.Shape()
    ensures !e.Abs(mode).NoMatch? && !e.Abs(mode).Matched?
  {
  }

  lemma FinalStep(e: Machine, mode: Mode)
    requires e.Shape() && e.store.len == 0 && mode != Go
    ensures Step(e.x, e.m.code, e.Abs(mode)) == if mode == Hit then Matched(e.capture[..]) else NoMatch
  {
  }

  /** Two halted states of one run are the same. */
  lemma LastStep(x: Ctx, code: Code, s: State, n: nat, last: nat)
    requires var v := Steps(x, code, s, last); v.NoMatch? || v.Matched?
    requires var v := Steps(x, code, s, n); v.NoMatch? || v.Matched?
    ensures Steps(x, code, s, n) == Steps(x, code, s, last)
  {
    hide Steps;
    if n <= last {
      StepsAdd(x, code, s, n, last - n);
      HaltedStays(x, code, Steps(x, code, s, n), last - n);
    } else {
      StepsAdd(x, code, s, last, n - last);
      HaltedStays(x, code, Steps(x, code, s, last), n - last);
    }
  }

  /** What the invariant says about the saved state of a greedy loop. */
  lemma GreedyAt(m: Image, t: Saved, bytes: seq<byte>) returns (i: Instr)
    requires Loaded(m) && m.code == Load(bytes) && SavedIn(m, t) && t.kind.GreedyState?
    ensures i.SimpleGreedyQuant? && Fetch(bytes, t.pc - 1) == Got(i) && m.code.fetch(t.pc - 1) == Got(i)
    ensures t.count >= 1 && t.pos >= i.count >= 0 && |t.stack| <= MaxDepth(m.d)
    ensures 0 <= t.pc - 1 && t.pc + 16 <= |bytes|
    ensures GetU32(bytes, t.pc + 12) == i.count && GetDisp(bytes, t.pc) == i.off
  {
    hide Loaded, Len, Depth, MaxDepth;
    var k: nat, p: nat :| GreedyPlaceAt(m, t, k, p);
    i := m.d[k];
    FetchAt(m, k);
    MaxDepthBounds(m.d, k);
    SkipLast(p, t.count, i.count);
    GreedyFields(bytes, t.pc - 1, i);
  }

  lemma JumpFields(bytes: seq<byte>, at: int, i: Instr)
    requires Fetch(bytes, at) == Got(i) && (i.Goto? || i.SplitGotoFirst? || i.SplitNextFirst? || i.Lookahead? || i.NegativeLookahead?)
    ensures 0 <= at && at + 5 <= |bytes| && GetDisp(bytes, at + 1) == i.off && bytes[at] == Opcode(i)
    ensures i.Goto? <==> bytes[at] == 7
    ensures i.SplitGotoFirst? <==> bytes[at] == 8
    ensures i.SplitNextFirst? <==> bytes[at] == 9
    ensures i.Lookahead? <==> bytes[at] == 23
  {
  }

  lemma GreedyFields(bytes: seq<byte>, at: int, i: Instr)
    requires Fetch(bytes, at) == Got(i) && i.SimpleGreedyQuant?
    ensures 0 <= at && at + 17 <= |bytes| && GetU32(bytes, at + 13) == i.count && GetDisp(bytes, at + 1) == i.off
    ensures GetU32(bytes, at + 5) == i.qmin && GetU32(bytes, at + 9) == i.qmax
  {
  }

  /** What the invariant says about the current instruction. */
  lemma Located(m: Image, s: State) returns (i: Instr)
    requires Loaded(m) && s.Run? && Inv(m, s)
    ensures m.code.fetch(s.pc) == Got(i) && Step(m.x, m.code, s) == StepInstr(m.x, m.code, s, i)
    ensures CapOp(i, m.nc)
    ensures Pops(i) ==> |s.stack| >= 1
    ensures i.PushI32? || i.PushCharPos? ==> |s.stack| < MaxDepth(m.d)
    ensures i.SimpleGreedyQuant? ==> AtomOps(s.pc + 17, m) && !GreedyRun(m.x, m.code, s.pc + 17, s.pos, 0, i.qmax).Broken?
  {
    hide StepInstr, Loaded, AllSavedIn, CapsIn, Len, Depth, MaxDepth, AtomOps, GreedyRun;
    var k: nat :| PlaceAt(m, s.pc, |s.stack|, k);
    FetchAt(m, k);
    i := if k < |m.d| then m.d[k] else Match;
    if k < |m.d| {
      CapOpAt(m, k);
      PlaceExits(m, s.pc, |s.stack|, k);
      if i.PushI32? || i.PushCharPos? { PlaceBound(m, s.pc + Size(i), |s.stack| + 1); }
      if i.SimpleGreedyQuant? { GreedyOps(m, s, k); }
    }
  }

  lemma CapOpAt(m: Image, k: nat)
    requires Loaded(m) && k < |m.d|
    ensures CapOp(m.d[k], m.nc)
  {
  }

  /** The code of a greedy loop's atom. */
  lemma GreedyOps(m: Image, s: State, k: nat)
    requires Loaded(m) && s.Run? && PlaceAt(m, s.pc, |s.stack|, k) && k < |m.d| && m.d[k].SimpleGreedyQuant?
    ensures AtomOps(s.pc + 17, m)
    ensures !GreedyRun(m.x, m.code, s.pc + 17, s.pos, 0, m.d[k].qmax).Broken?
  {
    hide Len, Depth, At, SimpleCount, AtomRun, GreedyRun, Fixed, Iterations, Skip, AtomOps;
    var i := m.d[k];
    assert TypedAt(m.d, k);
    var j: nat :| TypedTo(m.d, k, j);
    var c := m.d[k + 1..j - 1];
    NextIndex(m.d, k);
    var all := m.d + [Match];
    assert all == m.d[..k + 1] + ((c + [Match]) + all[j..]);
    AtConcat(m.code, m.h, m.d[..k + 1], (c + [Match]) + all[j..]);
    AtConcat(m.code, m.h + Len(m.d[..k + 1]), c + [Match], all[j..]);
    assert CapOps(c, m.nc);
    SimpleOps(m, s.pc + 17, c);
    var f := StrideOf(m.x, c);
    forall p: nat ensures AtomRun(m.x, m.code, s.pc + 17, p) == f(p) { AtomRunIsStraight(m.x, m.code, s.pc + 17, c, p); }
    StrideFixed(m.x, c);
    GreedyRunCounts(m.x, m.code, s.pc + 17, f, i.count, s.pos, 0, i.qmax);
  }

  lemma {:induction false} SimpleOps(m: Image, at: int, c: seq<Instr>)
    requires At(m.code, at, c + [Match]) && SimpleCount(c) >= 0 && CapOps(c, m.nc)
    ensures AtomOps(at, m)
    decreases |c|
  {
    if c == [] {
      assert c + [Match] == [Match];
    } else {
      assert c + [Match] == [c[0]] + (c[1..] + [Match]);
      AtCons(m.code, at, c[0], c[1..] + [Match]);
      SimpleOps(m, at + Size(c[0]), c[1..]);
    }
  }

  lemma OpcodeOf(bytes: seq<byte>, at: int, i: Instr)
    requires Fetch(bytes, at) == Got(i)
    ensures 0 <= at < |bytes| && bytes[at] == Opcode(i)
    ensures bytes[at] == 10 <==> i.Match?
    ensures CharOpcode(bytes[at]) <==> IsCharOp(i)
    ensures TestOpcode(bytes[at]) <==> IsTestOp(i)
    ensures bytes[at] == 19 || bytes[at] == 20 <==> i.BackReference? || i.BackwardBackReference?
    ensures bytes[at] == 28 <==> i.SimpleGreedyQuant?
    ensures bytes[at] == 27 <==> i.Prev?
    ensures 11 <= bytes[at] <= 13 <==> i.SaveStart? || i.SaveEnd? || i.SaveReset?
    ensures bytes[at] == 7 || bytes[at] == 8 || bytes[at] == 9 || bytes[at] == 23 || bytes[at] == 24
      <==> i.Goto? || i.SplitGotoFirst? || i.SplitNextFirst? || i.Lookahead? || i.NegativeLookahead?
    ensures bytes[at] == 14 <==> i.Loop?
    ensures bytes[at] == 15 || bytes[at] == 25 <==> i.PushI32? || i.PushCharPos?
    ensures bytes[at] == 16 || bytes[at] == 26 <==> i.Drop? || i.BneCharPos?
    ensures 1 <= bytes[at] <= 28
  {
  }

  lemma GreedyRunUnfold(x: Ctx, code: Code, pc: int, pos: nat, q: nat, qmax: int)
    ensures GreedyRun(x, code, pc, pos, q, qmax)
      == match AtomRun(x, code, pc, pos)
         case Missed => Times(q, pos)
         case Crashed => Broken
         case Reached(p) =>
           if q + 1 >= qmax && qmax != INF then Times(q + 1, p)
           else if pos < p <= |x.text| then GreedyRun(x, code, pc, p, q + 1, qmax)
           else Broken
  {
    hide AtomRun;
  }

  lemma GreedyStep(x: Ctx, code: Code, s: State, i: Instr)
    requires s.Run? && i.SimpleGreedyQuant?
    ensures StepInstr(x, code, s, i)
      == match GreedyRun(x, code, s.pc + 17, s.pos, 0, i.qmax)
         case Broken => Stuck
         case Times(q, p) =>
           if q < i.qmin then Fail(s.saved)
           else Run(s.pc + 17 + i.off, p, s.caps, s.stack,
                    if q > i.qmin then s.saved + [Saved(GreedyState, s.pc + 1, p, s.caps, s.stack, q - i.qmin)] else s.saved)
  {
    hide GreedyRun;
  }

  lemma MatchStep(x: Ctx, code: Code, s: State)
    requires s.Run?
    ensures StepInstr(x, code, s, Match) == Succeed(s.caps, s.saved)
  {
  }

  lemma PrevStep(x: Ctx, code: Code, s: State)
    requires s.Run?
    ensures StepInstr(x, code, s, Prev) == if s.pos == 0 then Fail(s.saved) else s.(pc := s.pc + 1, pos := s.pos - 1)
  {
  }

  lemma BackRefStep(x: Ctx, code: Code, s: State, i: Instr)
    requires s.Run? && (i.BackReference? || i.BackwardBackReference?)
    ensures StepInstr(x, code, s, i) == StepBackRef(x, s, i.BackwardBackReference?, i.n, s.pc + 2)
  {
  }

  lemma AtomHead(at: int, m: Image, bytes: seq<byte>) returns (i: Instr)
    requires m.code == Load(bytes) && AtomOps(at, m)
    ensures at < |bytes| && Fetch(bytes, at) == Got(i) && m.code.fetch(at) == Got(i)
    ensures i.Match? || ((IsCharOp(i) || IsTestOp(i)) && CapOp(i, m.nc) && AtomOps(at + Size(i), m))
  {
    hide Fetch;
    i := m.code.fetch(at).i;
  }

  lemma AtomRunUnfold(x: Ctx, code: Code, at: int, pos: nat, i: Instr)
    requires at < code.len && code.fetch(at) == Got(i)
    ensures AtomRun(x, code, at, pos)
      == if i.Match? then Reached(pos)
         else if IsCharOp(i) then (if pos < |x.text| && CharOp(x, i, x.text[pos]) then AtomRun(x, code, at + Size(i), pos + 1) else Missed)
         else if IsTestOp(i) then (if TestOp(x, i, pos) then AtomRun(x, code, at + Size(i), pos) else Missed)
         else Crashed
  {
    hide CharOp, TestOp;
  }

  lemma OpcodeClassesAt(bytes: seq<byte>, at: int, i: Instr)
    requires Fetch(bytes, at) == Got(i)
    ensures 0 <= at < |bytes| && bytes[at] == Opcode(i)
    ensures CharOpcode(bytes[at]) <==> IsCharOp(i)
    ensures TestOpcode(bytes[at]) <==> IsTestOp(i)
    ensures bytes[at] == 10 <==> i.Match?
  {
  }

  /** Straight-line atom code up to its `match`. */
  ghost predicate AtomOps(at: int, m: Image)
    decreases m.code.len - at
  {
    at < m.code.len && m.code.fetch(at).Got?
    && var i := m.code.fetch(at).i;
       i.Match? || ((IsCharOp(i) || IsTestOp(i)) && CapOp(i, m.nc) && AtomOps(at + Size(i), m))
  }
}
