/** What every reachable state of the machine satisfies when it runs compiled
    code: the program counter is at an instruction, the counter stack has the
    depth of the linear scan there, positions stay in the text, captures stay in
    their array, and the same holds of every saved state. The machine is never
    stuck. This does not depend on termination. */
module RegexInvariant {
  import opened Bytes
  import opened RegexSyntax
  import opened RegexSemantics
  import opened Bytecode
  import opened RegexEmit
  import opened RegexMachine
  import opened RegexGreedy
  import opened RegexCorrectness
  import opened RegexTyping
  import opened RegexProgram

  /** The bounds of a range opcode increase. */
  predicate SortedBounds(p: seq<int>) {
    forall i, j :: 0 <= i < j < |p| ==> p[i] <= p[j]
  }

  /** Capture operands stay below `nc`, and range opcodes are sorted. */
  predicate CapOp(i: Instr, nc: nat) {
    match i
    case SaveStart(n) => 0 <= n < nc
    case SaveEnd(n) => 0 <= n < nc
    case SaveReset(a, b) => 0 <= a <= b < nc
    case BackReference(n) => 0 <= n < CAPTURE_COUNT_MAX
    case BackwardBackReference(n) => 0 <= n < CAPTURE_COUNT_MAX
    case Range(p) => SortedBounds(p)
    case Range32(p) => SortedBounds(p)
    case _ => true
  }

  predicate CapOps(c: seq<Instr>, nc: nat) {
    forall k :: 0 <= k < |c| ==> CapOp(c[k], nc)
  }

  lemma CapsConcat(a: seq<Instr>, b: seq<Instr>, nc: nat)
    requires CapOps(a, nc) && CapOps(b, nc)
    ensures CapOps(a + b, nc)
  {
  }

  predicate Harmless(i: Instr) {
    Effect(i) != 0 || Jumps(i) || i.Match?
  }

  /** A list of jumps and stack operations. */
  lemma CapsFree(c: seq<Instr>, nc: nat)
    requires forall k :: 0 <= k < |c| ==> Harmless(c[k])
    ensures CapOps(c, nc)
  {
  }

  lemma LoopCapOps(a: seq<Instr>, greedy: bool, check: bool, k: int, nc: nat)
    requires CapOps(a, nc)
    ensures CapOps(StarCode(a, greedy, check), nc) && CapOps(UpToCode(a, greedy, k), nc) && CapOps(ExactCode(a, k), nc)
  {
    hide CapOps, Len;
    var n: int := Len(a);
    var p1, p2 := if check then [Split(greedy, n + 6), PushCharPos] else [Split(greedy, n + 5)], [if check then BneCharPos(-(n + 11)) else Goto(-(n + 10))];
    CapsFree(p1, nc); CapsFree(p2, nc);
    CapsConcat(p1, a, nc); CapsConcat(p1 + a, p2, nc);
    var q1, q2 := [PushI32(k), Split(greedy, n + 5)], [Loop(-(n + 10)), Drop];
    CapsFree(q1, nc); CapsFree(q2, nc);
    CapsConcat(q1, a, nc); CapsConcat(q1 + a, q2, nc);
    var r1, r2 := [PushI32(k)], [Loop(-(n + 5)), Drop];
    CapsFree(r1, nc); CapsFree(r2, nc);
    CapsConcat(r1, a, nc); CapsConcat(r1 + a, r2, nc);
  }

  lemma QuantCapOps(a: seq<Instr>, first: int, last: int, min: int, max: int, greedy: bool, nc: nat)
    requires CapOps(a, nc) && (first <= last ==> 0 <= first && last < nc)
    ensures CapOps(EmitQuant(a, first, last, min, max, greedy), nc)
  {
    hide CapOps, Len, StarCode, UpToCode, ExactCode, NeedsCheck, SimpleCount;
    EmitQuantIs(a, first, last, min, max, greedy);
    var n: int := Len(a);
    var core := RepCode(a, min, max, greedy);
    var check := NeedsCheck(a, greedy);
    LoopCapOps(a, greedy, check, max, nc);
    LoopCapOps(a, greedy, check, min, nc);
    LoopCapOps(a, greedy, check, max - min, nc);
    assert CapOps(core, nc) by {
      CapsFree([], nc);
      CapsFree([SimpleGreedyQuant(n + 1, min, max, SimpleCount(a))], nc);
      CapsFree([Match], nc);
      CapsFree([Split(greedy, n)], nc);
      CapsFree([Split(!greedy, -(n + 5))], nc);
      CapsConcat(a, [Match], nc);
      CapsConcat([SimpleGreedyQuant(n + 1, min, max, SimpleCount(a))], a + [Match], nc);
      CapsConcat([Split(greedy, n)], a, nc);
      CapsConcat(a, [Split(!greedy, -(n + 5))], nc);
      CapsConcat(ExactCode(a, min), StarCode(a, greedy, check), nc);
      CapsConcat(ExactCode(a, min), UpToCode(a, greedy, max - min), nc);
    }
    if Resets(a, first, last, min, max, greedy) {
      ResetCapOps(first, last, nc);
      CapsConcat([SaveReset(first, last)], core, nc);
    } else {
      assert [] + core == core;
    }
  }

  lemma ResetCapOps(first: int, last: int, nc: nat)
    requires 0 <= first <= last < nc
    ensures CapOps([SaveReset(first, last)], nc)
  {
  }

  lemma ClassSorted(points: seq<int>, nc: nat)
    requires SortedPoints(points)
    ensures CapOp(EmitClass(points), nc)
  {
    if |points| >= 2 {
      var top := if EmitClass(points).Range? then 0xffff else UINT32_MAX - 1;
      var b := Bounds(points, top);
      forall i, j | 0 <= i < j < |b| ensures b[i] <= b[j] { BoundsSorted(points, top, i, j); }
    }
  }

  lemma BoundsSorted(points: seq<int>, top: int, i: int, j: int)
    requires SortedPoints(points) && |points| >= 2 && 0 <= i < j < |points|
    requires top == if EmitClass(points).Range? then 0xffff else UINT32_MAX - 1
    ensures Bounds(points, top)[i] <= Bounds(points, top)[j]
  {
    var n := |points|;
    assert points[2 * (i / 2)] < points[2 * (i / 2) + 1];
    assert points[2 * (j / 2)] < points[2 * (j / 2) + 1];
    assert points[i] <= points[j];
    assert points[i] <= points[n - 2] || i == n - 1;
    if j % 2 == 1 && i % 2 == 0 && i / 2 < j / 2 { assert points[i] <= points[2 * (j / 2)]; }
  }

  lemma {:induction false} EmitCapOps(e: Env, r: Node, back: bool, cc: nat, nc: nat)
    requires WellFormed(r) && cc + NCaps(r) <= nc
    ensures CapOps(Emit(e, r, back, cc), nc)
    decreases r
  {
    hide Len, EmitQuant, EmitClass, CapOps;
    match r
    case Cat(a, b) =>
      EmitCapOps(e, a, back, cc, nc);
      EmitCapOps(e, b, back, cc + NCaps(a), nc);
      PairCapOps(Emit(e, a, back, cc), Emit(e, b, back, cc + NCaps(a)), nc);
    case Alt(a, b) =>
      EmitCapOps(e, a, back, cc, nc);
      EmitCapOps(e, b, back, cc + NCaps(a), nc);
      PairCapOps(Emit(e, a, back, cc), Emit(e, b, back, cc + NCaps(a)), nc);
    case Group(b) =>
      EmitCapOps(e, b, back, cc + 1, nc);
      CapOne(SaveStart(cc), nc);
      CapOne(SaveEnd(cc), nc);
      CapsFrame([SaveStart(cc)], Emit(e, b, back, cc + 1), [SaveEnd(cc)], nc);
      CapsFrame([SaveEnd(cc)], Emit(e, b, back, cc + 1), [SaveStart(cc)], nc);
    case Look(negative, behind, b) =>
      EmitCapOps(e, b, behind, cc, nc);
      var body := Emit(e, b, behind, cc);
      var i := if negative then NegativeLookahead(Len(body) + 1) else Lookahead(Len(body) + 1);
      CapOne(i, nc);
      CapOne(Match, nc);
      CapsFrame([i], body, [Match], nc);
    case Quant(b, min, max, greedy) =>
      EmitCapOps(e, b, back, cc, nc);
      QuantCapOps(Emit(e, b, back, cc), cc, cc + NCaps(b) - 1, min, max, greedy, nc);
    case _ => LeafCapOps(e, r, back, cc, nc);
  }

  lemma PairCapOps(ca: seq<Instr>, cb: seq<Instr>, nc: nat)
    requires CapOps(ca, nc) && CapOps(cb, nc)
    ensures CapOps(ca + cb, nc) && CapOps(cb + ca, nc)
    ensures CapOps([SplitNextFirst(Len(ca) + 5)] + ca + [Goto(Len(cb))] + cb, nc)
  {
    hide CapOps, Len;
    CapsConcat(ca, cb, nc);
    CapsConcat(cb, ca, nc);
    CapOne(SplitNextFirst(Len(ca) + 5), nc);
    CapOne(Goto(Len(cb)), nc);
    CapsFrame([SplitNextFirst(Len(ca) + 5)], ca, [Goto(Len(cb))], nc);
    CapsConcat([SplitNextFirst(Len(ca) + 5)] + ca + [Goto(Len(cb))], cb, nc);
  }

  lemma CapOne(i: Instr, nc: nat)
    requires CapOp(i, nc)
    ensures CapOps([i], nc)
  {
  }

  lemma CapsFrame(a: seq<Instr>, b: seq<Instr>, c: seq<Instr>, nc: nat)
    requires CapOps(a, nc) && CapOps(b, nc) && CapOps(c, nc)
    ensures CapOps(a + b + c, nc)
  {
    hide CapOps;
    CapsConcat(a, b, nc);
    CapsConcat(a + b, c, nc);
  }

  lemma LeafCapOps(e: Env, r: Node, back: bool, cc: nat, nc: nat)
    requires WellFormed(r) && !r.Cat? && !r.Alt? && !r.Group? && !r.Look? && !r.Quant?
    ensures CapOps(Emit(e, r, back, cc), nc)
  {
    hide EmitClass;
    if r.Class? { ClassSorted(r.points, nc); }
  }

  /** Code `d`, followed by `match`, lies at `h`; `nc` captures. */
  datatype Image = Image(x: Ctx, code: Code, h: int, d: seq<Instr>, nc: nat)

  ghost predicate Loaded(m: Image) {
    At(m.code, m.h, m.d + [Match]) && Typed(m.d) && CapOps(m.d, m.nc)
  }

  predicate CapsIn(m: Image, caps: seq<int>) {
    |caps| == 2 * m.nc && forall k :: 0 <= k < |caps| ==> -1 <= caps[k] <= |m.x.text|
  }

  /** `pc` is the address of instruction `k`, at depth `depth`. */
  predicate PlaceAt(m: Image, pc: int, depth: int, k: nat) {
    k <= |m.d| && pc == m.h + Len(m.d[..k]) && depth == Depth(m.d[..k])
  }

  ghost predicate Place(m: Image, pc: int, depth: int) {
    exists k: nat :: PlaceAt(m, pc, depth, k)
  }

  ghost predicate GreedyPlaceAt(m: Image, t: Saved, k: nat, p: nat) {
    && k < |m.d| && m.d[k].SimpleGreedyQuant? && m.d[k].count > 0
    && t.pc == m.h + Len(m.d[..k]) + 1 && |t.stack| == Depth(m.d[..k])
    && t.count >= 1 && t.pos == Skip(p, t.count, m.d[k].count)
  }

  ghost predicate SavedIn(m: Image, t: Saved) {
    && t.pos <= |m.x.text| && CapsIn(m, t.caps)
    && if t.kind.GreedyState? then exists k: nat, p: nat :: GreedyPlaceAt(m, t, k, p) else Place(m, t.pc, |t.stack|)
  }

  ghost predicate AllSavedIn(m: Image, saved: seq<Saved>) {
    forall k :: 0 <= k < |saved| ==> SavedIn(m, saved[k])
  }

  ghost predicate Inv(m: Image, s: State) {
    match s
    case Run(pc, pos, caps, stack, saved) =>
      Place(m, pc, |stack|) && pos <= |m.x.text| && CapsIn(m, caps) && AllSavedIn(m, saved)
    case Fail(saved) => AllSavedIn(m, saved)
    case Succeed(caps, saved) => CapsIn(m, caps) && AllSavedIn(m, saved)
    case NoMatch => true
    case Matched(caps) => CapsIn(m, caps)
    case Stuck => false
  }

  lemma FetchAt(m: Image, k: nat)
    requires Loaded(m) && k <= |m.d|
    ensures m.code.fetch(m.h + Len(m.d[..k])) == Got(if k < |m.d| then m.d[k] else Match)
  {
    hide Typed, Len, At;
    var all := m.d + [Match];
    Around(all, m.d, k);
    AtConcat(m.code, m.h, m.d[..k], all[k..]);
    AtCons(m.code, m.h + Len(m.d[..k]), all[k], all[k + 1..]);
  }

  lemma Around(all: seq<Instr>, d: seq<Instr>, k: nat)
    requires all == d + [Match] && k <= |d|
    ensures all == d[..k] + all[k..] && all[k..] == [all[k]] + all[k + 1..]
  {
  }

  lemma {:induction false} CopyForwardIn(x: Ctx, from: int, till: int, pos: nat)
    requires pos <= |x.text|
    ensures CopyForward(x, from, till, pos).Reached? ==> CopyForward(x, from, till, pos).pos <= |x.text|
    decreases till - from
  {
    if from < till && pos < |x.text| { CopyForwardIn(x, from + 1, till, pos + 1); }
  }

  lemma {:induction false} CopyBackwardIn(x: Ctx, from: int, till: int, pos: nat)
    requires pos <= |x.text|
    ensures CopyBackward(x, from, till, pos).Reached? ==> CopyBackward(x, from, till, pos).pos <= |x.text|
    decreases till - from
  {
    if from < till && pos > 0 { CopyBackwardIn(x, from, till - 1, pos - 1); }
  }

  /** Where an instruction can go next, and what it may pop. */
  ghost predicate Exits(m: Image, i: Instr, pc: int, depth: int) {
    && (Pops(i) ==> depth >= 1)
    && (!i.Match? ==> Place(m, pc + Size(i), depth + Effect(i)))
    && (Jumps(i) ==> Place(m, pc + Size(i) + i.off, depth + Effect(i)))
  }

  lemma PlaceExits(m: Image, pc: int, depth: int, k: nat)
    requires Loaded(m) && PlaceAt(m, pc, depth, k) && k < |m.d|
    ensures Exits(m, m.d[k], pc, depth)
  {
    hide Len, Depth, At;
    assert TypedAt(m.d, k);
    var j: nat :| TypedTo(m.d, k, j);
    NextIndex(m.d, k);
    assert PlaceAt(m, pc + Size(m.d[k]), depth + Effect(m.d[k]), k + 1);
    if Jumps(m.d[k]) { assert PlaceAt(m, pc + Size(m.d[k]) + m.d[k].off, depth + Effect(m.d[k]), j); }
  }

  /** Every opcode but the greedy one keeps the invariant. */
  lemma OpcodeKeeps(m: Image, s: State, i: Instr)
    requires s.Run? && Inv(m, s) && CapOp(i, m.nc) && Exits(m, i, s.pc, |s.stack|) && !i.SimpleGreedyQuant?
    ensures Inv(m, StepInstr(m.x, m.code, s, i))
  {
    hide Place, SavedIn, CharOp, TestOp, StepBackRef;
    if IsCharOp(i) || IsTestOp(i) {
    } else if i.BackReference? || i.BackwardBackReference? {
      BackRefKeeps(m, s, i);
    } else if i.SaveReset? || i.SaveStart? || i.SaveEnd? {
    } else {
      JumpKeeps(m, s, i);
    }
  }

  lemma BackRefKeeps(m: Image, s: State, i: Instr)
    requires s.Run? && Inv(m, s) && Exits(m, i, s.pc, |s.stack|) && (i.BackReference? || i.BackwardBackReference?)
    ensures Inv(m, StepBackRef(m.x, s, i.BackwardBackReference?, i.n, s.pc + Size(i)))
  {
    hide Place, SavedIn, CopyForward, CopyBackward;
    if 0 <= i.n && 2 * i.n + 1 < |s.caps| {
      var from, till := s.caps[2 * i.n], s.caps[2 * i.n + 1];
      CopyForwardIn(m.x, from, till, s.pos);
      CopyBackwardIn(m.x, from, till, s.pos);
    }
  }

  lemma JumpKeeps(m: Image, s: State, i: Instr)
    requires s.Run? && Inv(m, s) && Exits(m, i, s.pc, |s.stack|)
    requires !IsCharOp(i) && !IsTestOp(i) && !i.BackReference? && !i.BackwardBackReference?
    requires !i.SaveReset? && !i.SaveStart? && !i.SaveEnd? && !i.SimpleGreedyQuant?
    ensures Inv(m, StepInstr(m.x, m.code, s, i))
  {
    hide Place;
    assert i.SplitGotoFirst? ==> SavedIn(m, Save(s, SplitState, s.pc + Size(i), 0));
    assert i.SplitNextFirst? ==> SavedIn(m, Save(s, SplitState, s.pc + Size(i) + i.off, 0));
    assert i.Lookahead? ==> SavedIn(m, Save(s, LookState, s.pc + Size(i) + i.off, 0));
    assert i.NegativeLookahead? ==> SavedIn(m, Save(s, NegLookState, s.pc + Size(i) + i.off, 0));
  }

  lemma GreedyKeeps(m: Image, s: State, k: nat)
    requires Loaded(m) && s.Run? && Inv(m, s) && PlaceAt(m, s.pc, |s.stack|, k) && k < |m.d| && m.d[k].SimpleGreedyQuant?
    ensures Inv(m, StepInstr(m.x, m.code, s, m.d[k]))
  {
    hide Len, Depth, At, SimpleCount, AtomRun, GreedyRun, CapOps, CapsIn, Fixed, Iterations, Skip, Place;
    PlaceExits(m, s.pc, |s.stack|, k);
    var i := m.d[k];
    assert TypedAt(m.d, k);
    var j: nat :| TypedTo(m.d, k, j);
    var c := m.d[k + 1..j - 1];
    var n := i.count;
    NextIndex(m.d, k);
    var all := m.d + [Match];
    assert all == m.d[..k + 1] + ((c + [Match]) + all[j..]);
    AtConcat(m.code, m.h, m.d[..k + 1], (c + [Match]) + all[j..]);
    AtConcat(m.code, m.h + Len(m.d[..k + 1]), c + [Match], all[j..]);
    var f := StrideOf(m.x, c);
    forall p: nat ensures AtomRun(m.x, m.code, s.pc + 17, p) == f(p) { AtomRunIsStraight(m.x, m.code, s.pc + 17, c, p); }
    StrideFixed(m.x, c);
    GreedyRunCounts(m.x, m.code, s.pc + 17, f, n, s.pos, 0, i.qmax);
    var q := Iterations(m.x, f, s.pos, if i.qmax == INF then -1 else i.qmax);
    var p := Skip(s.pos, q, n);
    IterationsIn(m.x, f, n, s.pos, if i.qmax == INF then -1 else i.qmax);
    if q > i.qmin {
      SkipTwice(s.pos, i.qmin, q, n);
      var t := Saved(GreedyState, s.pc + 1, p, s.caps, s.stack, q - i.qmin);
      assert GreedyPlaceAt(m, t, k, Skip(s.pos, i.qmin, n));
      assert SavedIn(m, t);
    }
  }

  lemma {:induction false} IterationsIn(x: Ctx, f: Stride, n: nat, pos: nat, limit: int)
    requires Fixed(x, f, n) && pos <= |x.text|
    ensures Skip(pos, Iterations(x, f, pos, limit), n) <= |x.text|
    decreases Room(x, false, pos)
  {
    if limit != 0 && f(pos).Reached? { IterationsIn(x, f, n, f(pos).pos, limit - 1); }
  }

  lemma RunKeeps(m: Image, s: State)
    requires Loaded(m) && s.Run? && Inv(m, s)
    ensures Inv(m, Step(m.x, m.code, s))
  {
    hide Len, Depth, At, Typed, StepInstr, CapsIn, AllSavedIn, Exits;
    var k: nat :| PlaceAt(m, s.pc, |s.stack|, k);
    FetchAt(m, k);
    if k < |m.d| {
      PlaceExits(m, s.pc, |s.stack|, k);
      if m.d[k].SimpleGreedyQuant? { GreedyKeeps(m, s, k); } else { OpcodeKeeps(m, s, m.d[k]); }
    } else {
      MatchKeeps(m, s);
    }
  }

  lemma MatchKeeps(m: Image, s: State)
    requires s.Run? && Inv(m, s)
    ensures Inv(m, StepInstr(m.x, m.code, s, Match))
  {
    hide Place, SavedIn;
  }

  lemma UnwindKeeps(m: Image, saved: seq<Saved>)
    requires Loaded(m) && AllSavedIn(m, saved)
    ensures Inv(m, Unwind(m.code, saved))
  {
    hide Len, Depth, At, Typed, CapsIn, Place, Skip;
    if saved != [] {
      var t, rest := Top(saved), Pop(saved);
      assert SavedIn(m, t);
      assert forall k :: 0 <= k < |rest| ==> rest[k] == saved[k];
      if t.kind.GreedyState? {
        var k: nat, p: nat :| GreedyPlaceAt(m, t, k, p);
        FetchAt(m, k);
        var i := m.d[k];
        SkipLast(p, t.count, i.count);
        assert PlaceAt(m, t.pc - 1, |t.stack|, k);
        PlaceExits(m, t.pc - 1, |t.stack|, k);
        if t.count > 1 {
          var t' := t.(pos := t.pos - i.count, count := t.count - 1);
          assert GreedyPlaceAt(m, t', k, p);
          assert SavedIn(m, t');
        }
      }
    }
  }

  lemma AcceptKeeps(m: Image, caps: seq<int>, saved: seq<Saved>)
    requires CapsIn(m, caps) && AllSavedIn(m, saved)
    ensures Inv(m, Accept(caps, saved))
  {
    hide Place, CapsIn;
    if saved != [] {
      assert SavedIn(m, Top(saved));
      var rest := Pop(saved);
      assert forall k :: 0 <= k < |rest| ==> rest[k] == saved[k];
    }
  }

  /** Every step keeps the invariant. */
  lemma StepKeeps(m: Image, s: State)
    requires Loaded(m) && Inv(m, s)
    ensures Inv(m, Step(m.x, m.code, s))
  {
    match s
    case Run(_, _, _, _, _) => RunKeeps(m, s);
    case Fail(saved) => UnwindKeeps(m, saved);
    case Succeed(caps, saved) => AcceptKeeps(m, caps, saved);
    case _ =>
  }

  lemma {:induction false} StepsKeep(m: Image, s: State, n: nat)
    requires Loaded(m) && Inv(m, s)
    ensures Inv(m, Steps(m.x, m.code, s, n))
    decreases n
  {
    hide Inv, Loaded, Step;
    if n > 0 {
      StepKeeps(m, s);
      StepsKeep(m, Step(m.x, m.code, s), n - 1);
    }
  }

  /** The depth that the linear scan has reached at a byte offset. */
  ghost function ScanDepth(c: seq<Instr>, off: int): int
    decreases |c|
  {
    if c == [] || off <= 0 then 0 else Effect(c[0]) + ScanDepth(c[1..], off - Size(c[0]))
  }

  lemma {:induction false} ScanDepthIs(c: seq<Instr>, k: nat)
    requires k <= |c|
    ensures ScanDepth(c, Len(c[..k])) == Depth(c[..k])
    decreases |c|
  {
    if k > 0 {
      var rest := c[1..];
      ScanDepthIs(rest, k - 1);
      assert c[..k] == [c[0]] + rest[..k - 1];
      LenCons(c[0], rest[..k - 1]);
      DepthConcat([c[0]], rest[..k - 1]);
      Depth1(c[0]);
    }
  }

  lemma {:induction false} MaxDepthBounds(c: seq<Instr>, k: nat)
    requires k <= |c|
    ensures Depth(c[..k]) <= MaxDepth(c)
    decreases |c|
  {
    if k == |c| {
      assert c[..k] == c;
    } else {
      MaxDepthBounds(c[..|c| - 1], k);
      assert c[..|c| - 1][..k] == c[..k];
    }
  }

  /** The program without its final `match`. */
  function ProgramBody(e: Env, r: Node): seq<Instr> {
    Prefix(e.sticky) + Emit(e, Group(r), false, 0)
  }

  lemma ProgramIs(e: Env, r: Node)
    ensures Program(e, r) == ProgramBody(e, r) + [Match]
  {
  }

  lemma PrefixTyped(sticky: bool)
    ensures Typed(Prefix(sticky)) && Depth(Prefix(sticky)) == 0
  {
    if sticky {
      TypedNil();
    } else {
      TypedPlain(Any);
      Depth1(Any);
      Len1(Any);
      StarTyped([Any], false, false);
      assert Prefix(false) == StarCode([Any], false, false);
    }
  }

  lemma ProgramLoaded(x: Ctx, bytes: seq<byte>, h: int, r: Node)
    requires WellFormed(r) && AllEncodable(Program(x.env, r)) && Lies(bytes, h, Encode(Program(x.env, r)))
    ensures Loaded(Image(x, Load(bytes), h, ProgramBody(x.env, r), 1 + NCaps(r)))
  {
    hide Encode, Lies, At, Typed, Len, Depth, Emit, CapOps, Prefix, Program;
    var c := Emit(x.env, Group(r), false, 0);
    ProgramIs(x.env, r);
    AtStored(bytes, h, Program(x.env, r));
    PrefixTyped(x.env.sticky);
    PrefixCapOps(x.env.sticky, 1 + NCaps(r));
    EmitTyped(x.env, Group(r), false, 0);
    TypedConcat(Prefix(x.env.sticky), c);
    EmitCapOps(x.env, Group(r), false, 0, 1 + NCaps(r));
    CapsConcat(Prefix(x.env.sticky), c, 1 + NCaps(r));
  }

  lemma PrefixCapOps(sticky: bool, nc: nat)
    ensures CapOps(Prefix(sticky), nc)
  {
  }

  /** Stack bound: in every state the machine reaches on a compiled pattern, the
      counter stack has exactly the depth the linear scan computes at that
      program counter, and so never exceeds the size stored in the header; and
      the machine never gets stuck. */
  lemma StackBound(x: Ctx, bytes: seq<byte>, h: int, r: Node, start: nat, n: nat)
    requires WellFormed(r) && AllEncodable(Program(x.env, r)) && Lies(bytes, h, Encode(Program(x.env, r)))
    requires start <= |x.text|
    ensures var s := Steps(x, Load(bytes), Run(h, start, Nulls(2 * (1 + NCaps(r))), [], []), n);
      && !s.Stuck?
      && (s.Run? ==> |s.stack| == ScanDepth(Program(x.env, r), s.pc - h) <= MaxDepth(Program(x.env, r)))
  {
    hide Encode, Lies, Len, Depth, Emit, Steps, Load, Loaded, CapsIn, AllSavedIn, MaxDepth, ScanDepth, AllEncodable;
    var d := ProgramBody(x.env, r);
    var m := Image(x, Load(bytes), h, d, 1 + NCaps(r));
    var s0 := Run(h, start, Nulls(2 * (1 + NCaps(r))), [], []);
    ProgramLoaded(x, bytes, h, r);
    InitIn(m, s0);
    StepsKeep(m, s0, n);
    var s := Steps(x, Load(bytes), s0, n);
    if s.Run? {
      var k: nat :| PlaceAt(m, s.pc, |s.stack|, k);
      var p := Program(x.env, r);
      ProgramIs(x.env, r);
      assert p[..k] == d[..k];
      ScanDepthIs(p, k);
      MaxDepthBounds(p, k);
    }
  }

  lemma InitIn(m: Image, s: State)
    requires s.Run? && s.pc == m.h && s.stack == [] && s.saved == [] && s.pos <= |m.x.text| && s.caps == Nulls(2 * m.nc)
    ensures Inv(m, s)
  {
    assert m.d[..0] == [];
    assert PlaceAt(m, s.pc, 0, 0);
  }
}
