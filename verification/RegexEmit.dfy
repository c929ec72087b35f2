/** The code that libregexp.c emits for a pattern, as lists of instructions, and
    what its analyses of emitted code decide. */
module RegexEmit {
  import opened Bytes
  import opened RegexSyntax
  import opened Bytecode

  predicate IsCharOp(i: Instr) {
    i.Char? || i.Char32? || i.Dot? || i.Any? || i.Range? || i.Range32?
  }

  predicate IsTestOp(i: Instr) {
    i.LineStart? || i.LineEnd? || i.WordBoundary? || i.NotWordBoundary?
  }

  /** Opcodes that re_check_advance passes over without a decision. */
  predicate IsNeutralOp(i: Instr) {
    || IsTestOp(i) || i.PushI32? || i.PushCharPos? || i.Drop? || i.Prev?
    || i.SaveStart? || i.SaveEnd? || i.SaveReset? || i.BackReference? || i.BackwardBackReference?
  }

  /** The first opcode that is not neutral reads a character. */
  predicate ReadsFirst(c: seq<Instr>) {
    c != [] && (IsCharOp(c[0]) || (IsNeutralOp(c[0]) && ReadsFirst(c[1..])))
  }

  /** The captures that re_check_advance marks as written by an opcode; the
      last capture of a save_reset is not marked. */
  predicate Writes(i: Instr, n: int) {
    match i
    case SaveStart(m) => n == m
    case SaveEnd(m) => n == m
    case SaveReset(a, b) => a <= n < b
    case _ => false
  }

  predicate Refers(i: Instr, n: int) {
    match i
    case BackReference(m) => n == m
    case BackwardBackReference(m) => n == m
    case _ => false
  }

  predicate AnyWrites(c: seq<Instr>, n: int) {
    exists k :: 0 <= k < |c| && Writes(c[k], n)
  }

  predicate AnyRefers(c: seq<Instr>, n: int) {
    exists k :: 0 <= k < |c| && Refers(c[k], n)
  }

  /** Some capture is both written and referred to. */
  predicate RefersToOwn(c: seq<Instr>) {
    exists n :: 0 <= n < CAPTURE_COUNT_MAX && AnyWrites(c, n) && AnyRefers(c, n)
  }

  /** The verdict of re_check_advance. */
  function CheckAdvance(c: seq<Instr>): int {
    if RefersToOwn(c) then -1 else if ReadsFirst(c) then 1 else 0
  }

  /** The verdict of re_is_simple_quantifier: the number of characters that
      straight-line code of character and test opcodes reads. */
  function SimpleCount(c: seq<Instr>): (n: int)
    ensures -1 <= n
  {
    if c == [] then 0
    else
      var rest := SimpleCount(c[1..]);
      if rest < 0 then -1
      else if IsCharOp(c[0]) then 1 + rest
      else if IsTestOp(c[0]) then rest
      else -1
  }

  /** Depth of the counter stack after straight-line execution, relative to the
      depth before it. */
  function Effect(i: Instr): int {
    if i.PushI32? || i.PushCharPos? then 1 else if i.Drop? || i.BneCharPos? then -1 else 0
  }

  function Depth(c: seq<Instr>): int {
    if c == [] then 0 else Depth(c[..|c| - 1]) + Effect(c[|c| - 1])
  }

  /** The largest depth at any point of the code. */
  function MaxDepth(c: seq<Instr>): int {
    if c == [] then 0
    else
      var m, d := MaxDepth(c[..|c| - 1]), Depth(c);
      if d > m then d else m
  }

  /** Inclusive bounds from the points of a CharRange; `top` replaces the
      reserved value. */
  function Bounds(points: seq<int>, top: int): (b: seq<int>)
    ensures |b| == |points|
  {
    seq(|points|, k requires 0 <= k < |points| =>
      if k % 2 == 0 then points[k] else if points[k] == UINT32_MAX then top else points[k] - 1)
  }

  function EmitClass(points: seq<int>): Instr {
    if |points| < 2 then Char32(UINT32_MAX)
    else
      var last := points[|points| - 1];
      var high := if last == UINT32_MAX then points[|points| - 2] else last;
      if high <= 0xffff then Range(Bounds(points, 0xffff)) else Range32(Bounds(points, UINT32_MAX - 1))
  }

  /** The operand of `split`: enter the atom first when greedy. */
  function Split(greedy: bool, off: int): Instr {
    if greedy then SplitNextFirst(off) else SplitGotoFirst(off)
  }

  function OneChar(back: bool, i: Instr): seq<Instr> {
    if back then [Prev, i, Prev] else [i]
  }

  /** A loop that the atom may leave at any time: with `check`, an iteration
      that does not move leaves it too. */
  function StarCode(atom: seq<Instr>, greedy: bool, check: bool): seq<Instr> {
    var n := Len(atom);
    if check then [Split(greedy, n + 6), PushCharPos] + atom + [BneCharPos(-(n + 11))]
    else [Split(greedy, n + 5)] + atom + [Goto(-(n + 10))]
  }

  /** At most `k` iterations, counted on the stack. */
  function UpToCode(atom: seq<Instr>, greedy: bool, k: int): seq<Instr> {
    var n := Len(atom);
    [PushI32(k), Split(greedy, n + 5)] + atom + [Loop(-(n + 10)), Drop]
  }

  /** Exactly `k` iterations. */
  function ExactCode(atom: seq<Instr>, k: int): seq<Instr> {
    if k == 1 then atom else [PushI32(k)] + atom + [Loop(-(Len(atom) + 5)), Drop]
  }

  predicate UsesGreedyOp(atom: seq<Instr>, max: int, greedy: bool) {
    greedy && max > 0 && SimpleCount(atom) > 0
  }

  predicate NeedsCheck(atom: seq<Instr>, greedy: bool) {
    greedy && CheckAdvance(atom) == 0
  }

  /** The code of a quantified atom that holds the captures first .. last. */
  function EmitQuant(atom: seq<Instr>, first: int, last: int, min: int, max: int, greedy: bool): seq<Instr> {
    if UsesGreedyOp(atom, max, greedy) then
      [SimpleGreedyQuant(Len(atom) + 1, min, max, SimpleCount(atom))] + atom + [Match]
    else
      var check := NeedsCheck(atom, greedy);
      if min == 0 then
        (if first <= last then [SaveReset(first, last)] else []) +
        (if max == 0 then []
         else if max == 1 then [Split(greedy, Len(atom))] + atom
         else if max == INF then StarCode(atom, greedy, check)
         else UpToCode(atom, greedy, max))
      else if min == 1 && max == INF && !check then
        atom + [Split(!greedy, -(Len(atom) + 5))]
      else
        ExactCode(atom, min) +
        (if max == INF then StarCode(atom, greedy, check)
         else if max > min then UpToCode(atom, greedy, max - min)
         else [])
  }

  /** The code of a pattern whose captures are numbered from `cc`. */
  function Emit(e: Env, r: Node, back: bool, cc: nat): seq<Instr> {
    match r
    case Empty => []
    case Chr(c) =>
      var f := Fold(e, c);
      OneChar(back, if f <= 0xffff then Char(f) else Char32(f))
    case AnyChar => OneChar(back, if e.dotall then Any else Dot)
    case Class(points) => OneChar(back, EmitClass(points))
    case Bol => [LineStart]
    case Eol => [LineEnd]
    case WordB(negated) => [if negated then NotWordBoundary else WordBoundary]
    case BackRef(n) => [if back then BackwardBackReference(n) else BackReference(n)]
    case Cat(a, b) =>
      var ca, cb := Emit(e, a, back, cc), Emit(e, b, back, cc + NCaps(a));
      if back then cb + ca else ca + cb
    case Alt(a, b) =>
      var ca, cb := Emit(e, a, back, cc), Emit(e, b, back, cc + NCaps(a));
      [SplitNextFirst(Len(ca) + 5)] + ca + [Goto(Len(cb))] + cb
    case Group(b) =>
      var body := Emit(e, b, back, cc + 1);
      if back then [SaveEnd(cc)] + body + [SaveStart(cc)] else [SaveStart(cc)] + body + [SaveEnd(cc)]
    case Look(negative, behind, b) =>
      var body := Emit(e, b, behind, cc);
      [if negative then NegativeLookahead(Len(body) + 1) else Lookahead(Len(body) + 1)] + body + [Match]
    case Quant(b, min, max, greedy) =>
      EmitQuant(Emit(e, b, back, cc), cc, cc + NCaps(b) - 1, min, max, greedy)
  }

  /** The search prefix of a pattern that is not sticky, lines 1851-1859. */
  function Prefix(sticky: bool): seq<Instr> {
    if sticky then [] else [SplitGotoFirst(6), Any, Goto(-11)]
  }

  /** The whole instruction part of a compiled pattern. */
  function Program(e: Env, r: Node): seq<Instr> {
    Prefix(e.sticky) + [SaveStart(0)] + Emit(e, r, false, 1) + [SaveEnd(0), Match]
  }
}
