/** simple_greedy_quant: running the atom as often as possible and then stepping
    back a fixed number of characters offers the same matches, in the same
    order, as repeating the atom through splits. */
module RegexGreedy {
  import opened RegexSyntax
  import opened RegexSemantics
  import opened RegexEquations
  import opened Bytecode
  import opened RegexEmit
  import opened RegexMachine
  import opened RegexDelivery
  import opened RegexProgress
  import opened RegexLoops
  import opened RegexClass

  /** Straight-line execution of a list of instructions. */
  ghost function Straight(x: Ctx, c: seq<Instr>, pos: nat): Outcome {
    if c == [] then Reached(pos)
    else if IsCharOp(c[0]) then
      if pos < |x.text| && CharOp(x, c[0], x.text[pos]) then Straight(x, c[1..], pos + 1) else Missed
    else if IsTestOp(c[0]) then
      if TestOp(x, c[0], pos) then Straight(x, c[1..], pos) else Missed
    else Crashed
  }

  lemma {:induction false} AtomRunIsStraight(x: Ctx, code: Code, pc: int, c: seq<Instr>, pos: nat)
    requires At(code, pc, c + [Match]) && SimpleCount(c) >= 0
    ensures AtomRun(x, code, pc, pos) == Straight(x, c, pos)
    decreases |c|
  {
    if c == [] {
      assert c + [Match] == [Match];
    } else {
      var i, rest := c[0], c[1..];
      assert c + [Match] == [i] + (rest + [Match]);
      AtCons(code, pc, i, rest + [Match]);
      if pos < |x.text| && IsCharOp(i) { AtomRunIsStraight(x, code, pc + Size(i), rest, pos + 1); }
      AtomRunIsStraight(x, code, pc + Size(i), rest, pos);
    }
  }

  lemma {:induction false} StraightConcat(x: Ctx, a: seq<Instr>, b: seq<Instr>, pos: nat)
    ensures Straight(x, a + b, pos) == (match Straight(x, a, pos) case Reached(p) => Straight(x, b, p) case o => o)
    decreases |a|
  {
    if a == [] {
      assert a + b == b;
    } else {
      assert (a + b)[0] == a[0] && (a + b)[1..] == a[1..] + b;
      StraightConcat(x, a[1..], b, pos + 1);
      StraightConcat(x, a[1..], b, pos);
    }
  }

  lemma {:induction false} SimpleCountConcat(a: seq<Instr>, b: seq<Instr>)
    ensures SimpleCount(a + b) == if SimpleCount(a) < 0 || SimpleCount(b) < 0 then -1 else SimpleCount(a) + SimpleCount(b)
  {
    if a == [] {
      assert a + b == b;
    } else {
      assert (a + b)[0] == a[0] && (a + b)[1..] == a[1..] + b;
      SimpleCountConcat(a[1..], b);
    }
  }

  /** Code with any other opcode is not simple. */
  lemma {:induction false} NotSimple(c: seq<Instr>, k: nat)
    requires k < |c| && !IsCharOp(c[k]) && !IsTestOp(c[k])
    ensures SimpleCount(c) == -1
  {
    if k > 0 { NotSimple(c[1..], k - 1); }
  }

  /** Simple code reads a fixed number of characters. */
  lemma {:induction false} StraightReads(x: Ctx, c: seq<Instr>, pos: nat)
    requires SimpleCount(c) >= 0
    ensures !Straight(x, c, pos).Crashed?
    ensures Straight(x, c, pos).Reached? ==> Straight(x, c, pos).pos == pos + SimpleCount(c)
    ensures Straight(x, c, pos).Reached? && SimpleCount(c) > 0 ==> Straight(x, c, pos).pos <= |x.text|
    decreases |c|
  {
    if c != [] {
      if pos < |x.text| { StraightReads(x, c[1..], pos + 1); }
      StraightReads(x, c[1..], pos);
    }
  }

  function AsResults(o: Outcome, caps: seq<int>): seq<Res> {
    if o.Reached? then [Res(o.pos, caps)] else []
  }

  /** A pattern with simple code has at most one match, the one its code finds. */
  ghost predicate Simple(x: Ctx, r: Node, cc: nat, c: seq<Instr>) {
    forall s: Res :: SimpleAt(x, r, cc, c, s)
  }

  ghost predicate SimpleAt(x: Ctx, r: Node, cc: nat, c: seq<Instr>, s: Res) {
    Results(x, false, Once(r, cc), s) == AsResults(Straight(x, c, s.pos), s.caps)
  }

  lemma {:induction false} SimpleNode(x: Ctx, r: Node, cc: nat)
    requires WellFormed(r) && WellFormedCtx(x)
    ensures SimpleCount(Emit(x.env, r, false, cc)) >= 0 ==> Simple(x, r, cc, Emit(x.env, r, false, cc))
    decreases r
  {
    hide Results, NodeResults, Straight, SimpleAt, EmitQuant;
    var c := Emit(x.env, r, false, cc);
    match r
    case Empty => SimpleEmpty(x, cc);
    case Chr(_) => SimpleChar(x, r, cc);
    case AnyChar => SimpleChar(x, r, cc);
    case Class(_) => SimpleChar(x, r, cc);
    case Bol => SimpleTest(x, r, cc, LineStart);
    case Eol => SimpleTest(x, r, cc, LineEnd);
    case WordB(negated) => SimpleTest(x, r, cc, if negated then NotWordBoundary else WordBoundary);
    case BackRef(_) => NotSimple(c, 0);
    case Cat(a, b) =>
      SimpleNode(x, a, cc);
      SimpleNode(x, b, cc + NCaps(a));
      SimpleCat(x, a, b, cc, Emit(x.env, a, false, cc), Emit(x.env, b, false, cc + NCaps(a)));
    case Alt(_, _) => NotSimple(c, 0);
    case Group(_) => NotSimple(c, 0);
    case Look(_, _, _) => NotSimple(c, 0);
    case Quant(b, min, max, greedy) =>
      SimpleNode(x, b, cc);
      SimpleQuant(x, b, min, max, greedy, cc, Emit(x.env, b, false, cc));
  }

  lemma SimpleEmpty(x: Ctx, cc: nat)
    ensures Simple(x, Empty, cc, [])
  {
    forall s: Res ensures SimpleAt(x, Empty, cc, [], s) {}
  }

  lemma StraightOne(x: Ctx, i: Instr, pos: nat)
    ensures Straight(x, [i], pos)
      == if IsCharOp(i) then (if pos < |x.text| && CharOp(x, i, x.text[pos]) then Reached(pos + 1) else Missed)
         else if IsTestOp(i) then (if TestOp(x, i, pos) then Reached(pos) else Missed)
         else Crashed
  {
    hide CharOp, TestOp;
    assert [i][1..] == [];
    assert Straight(x, [], pos) == Reached(pos) && Straight(x, [], pos + 1) == Reached(pos + 1);
  }

  lemma SimpleTest(x: Ctx, r: Node, cc: nat, i: Instr)
    requires r.Bol? || r.Eol? || r.WordB?
    requires Emit(x.env, r, false, cc) == [i]
    ensures Simple(x, r, cc, [i])
  {
    hide Results, Straight;
    forall s: Res ensures SimpleAt(x, r, cc, [i], s) {
      TestResults(x, false, r, cc, s);
      StraightOne(x, i, s.pos);
    }
  }

  lemma CatOnce(x: Ctx, a: Node, b: Node, cc: nat, s: Res, o: Outcome)
    requires Results(x, false, Once(a, cc), s) == AsResults(o, s.caps)
    ensures Results(x, false, Once(Cat(a, b), cc), s)
      == if o.Reached? then Results(x, false, Once(b, cc + NCaps(a)), Res(o.pos, s.caps)) else []
  {
    hide Results;
    var pb := Once(b, cc + NCaps(a));
    CatResults(x, false, a, b, cc, s);
    if o.Reached? {
      AllSingle(x, false, pb, Res(o.pos, s.caps));
    } else {
      assert All(x, false, pb, []) == [];
    }
  }

  lemma SimpleCat(x: Ctx, a: Node, b: Node, cc: nat, ca: seq<Instr>, cb: seq<Instr>)
    requires SimpleCount(ca) >= 0 ==> Simple(x, a, cc, ca)
    requires SimpleCount(cb) >= 0 ==> Simple(x, b, cc + NCaps(a), cb)
    ensures SimpleCount(ca + cb) >= 0 ==> Simple(x, Cat(a, b), cc, ca + cb)
  {
    hide Results, NodeResults, Straight, SimpleCount;
    SimpleCountConcat(ca, cb);
    forall s: Res | SimpleCount(ca + cb) >= 0 ensures SimpleAt(x, Cat(a, b), cc, ca + cb, s) {
      StraightConcat(x, ca, cb, s.pos);
      assert SimpleAt(x, a, cc, ca, s);
      var o := Straight(x, ca, s.pos);
      CatOnce(x, a, b, cc, s, o);
      if o.Reached? { assert SimpleAt(x, b, cc + NCaps(a), cb, Res(o.pos, s.caps)); }
    }
  }

  lemma SimpleChar(x: Ctx, r: Node, cc: nat)
    requires WellFormed(r) && WellFormedCtx(x) && (r.Chr? || r.AnyChar? || r.Class?)
    ensures Simple(x, r, cc, Emit(x.env, r, false, cc))
  {
    hide Results, CharOp, Accepts, Straight;
    var i := Emit(x.env, r, false, cc)[0];
    forall s: Res ensures SimpleAt(x, r, cc, [i], s) {
      StraightOne(x, i, s.pos);
      CharResults(x, false, r, cc, s);
      OneCharCorrect(x, r, cc, i, 0);
      if s.pos < |x.text| { OneCharCorrect(x, r, cc, i, x.text[s.pos]); }
    }
  }

  /** Simple quantified code has no code at all, or only that of its atom. */
  lemma QuantShape(atom: seq<Instr>, first: int, last: int, min: int, max: int, greedy: bool)
    requires 0 <= min <= max <= INF
    ensures var c := EmitQuant(atom, first, last, min, max, greedy);
      SimpleCount(c) >= 0 ==> (max == 0 && first > last && c == []) || (min == max == 1 && c == atom)
  {
    var c := EmitQuant(atom, first, last, min, max, greedy);
    if UsesGreedyOp(atom, max, greedy) || min >= 2 {
      NotSimple(c, 0);
    } else if min == 0 {
      if first <= last || max > 0 { NotSimple(c, 0); }
    } else if max == 1 {
      assert c == atom + [] == atom;
    } else {
      NotSimple(c, |atom|);
    }
  }

  lemma SimpleQuant(x: Ctx, b: Node, min: int, max: int, greedy: bool, cc: nat, atom: seq<Instr>)
    requires 0 <= min <= max <= INF && (SimpleCount(atom) >= 0 ==> Simple(x, b, cc, atom))
    ensures var c := EmitQuant(atom, cc, cc + NCaps(b) - 1, min, max, greedy);
      SimpleCount(c) >= 0 ==> Simple(x, Quant(b, min, max, greedy), cc, c)
  {
    var c := EmitQuant(atom, cc, cc + NCaps(b) - 1, min, max, greedy);
    QuantShape(atom, cc, cc + NCaps(b) - 1, min, max, greedy);
    if SimpleCount(c) >= 0 {
      if max == 0 { SimpleQuantNone(x, b, greedy, cc); } else { SimpleQuantOne(x, b, greedy, cc, atom); }
    }
  }

  lemma SimpleQuantOne(x: Ctx, b: Node, greedy: bool, cc: nat, atom: seq<Instr>)
    requires Simple(x, b, cc, atom)
    ensures Simple(x, Quant(b, 1, 1, greedy), cc, atom)
  {
    forall s: Res ensures SimpleAt(x, Quant(b, 1, 1, greedy), cc, atom, s) {
      QuantOne(x, b, greedy, cc, s);
      assert SimpleAt(x, b, cc, atom, s);
    }
  }

  lemma SimpleQuantNone(x: Ctx, b: Node, greedy: bool, cc: nat)
    requires NCaps(b) == 0
    ensures Simple(x, Quant(b, 0, 0, greedy), cc, [])
  {
    forall s: Res ensures SimpleAt(x, Quant(b, 0, 0, greedy), cc, [], s) { QuantNone(x, b, greedy, cc, s); }
  }

  lemma QuantNone(x: Ctx, b: Node, greedy: bool, cc: nat, s: Res)
    requires NCaps(b) == 0
    ensures Results(x, false, Once(Quant(b, 0, 0, greedy), cc), s) == [s]
  {
    hide Results;
    QuantResults(x, false, b, 0, 0, greedy, cc, s);
    RepNone(x, false, b, cc, greedy, s);
  }

  lemma QuantOne(x: Ctx, b: Node, greedy: bool, cc: nat, s: Res)
    ensures Results(x, false, Once(Quant(b, 1, 1, greedy), cc), s) == Results(x, false, Once(b, cc), s)
  {
    hide Results, All;
    QuantResults(x, false, b, 1, 1, greedy, cc, s);
    RepUnfold(x, false, b, cc, 1, 0, false, greedy, s);
    AllNone(x, false, b, cc, greedy, Results(x, false, Once(b, cc), s));
  }

  lemma AllSingle(x: Ctx, back: bool, p: Plan, s: Res)
    ensures All(x, back, p, [s]) == Results(x, back, p, s)
  {
    assert [s][1..] == [];
  }

  /** What one run of an atom does from each position. */
  type Stride = nat -> Outcome

  ghost function StrideOf(x: Ctx, c: seq<Instr>): Stride { (pos: nat) => Straight(x, c, pos) }

  /** Every successful run moves by `n`, inside the text. */
  ghost predicate Fixed(x: Ctx, f: Stride, n: nat) {
    n > 0 && forall pos: nat :: !f(pos).Crashed? && (f(pos).Reached? ==> f(pos).pos == pos + n <= |x.text|)
  }

  lemma StrideFixed(x: Ctx, c: seq<Instr>)
    requires SimpleCount(c) > 0
    ensures Fixed(x, StrideOf(x, c), SimpleCount(c))
  {
    var f := StrideOf(x, c);
    forall pos: nat ensures !f(pos).Crashed? && (f(pos).Reached? ==> f(pos).pos == pos + SimpleCount(c) <= |x.text|) {
      StraightReads(x, c, pos);
    }
  }

  /** How often an atom can be run in a row; a negative limit is no limit. */
  ghost function Iterations(x: Ctx, f: Stride, pos: nat, limit: int): nat
    decreases Room(x, false, pos)
  {
    if limit == 0 then 0
    else
      match f(pos)
      case Reached(p) => if pos < p <= |x.text| then 1 + Iterations(x, f, p, limit - 1) else 0
      case _ => 0
  }

  /** The position `k` atoms of `n` characters further on. */
  function Skip(pos: nat, k: nat, n: nat): (p: nat)
    ensures p >= pos
    decreases k
  {
    if k == 0 then pos else Skip(pos + n, k - 1, n)
  }

  lemma {:induction false} SkipLast(pos: nat, k: nat, n: nat)
    requires k >= 1
    ensures Skip(pos, k, n) == Skip(pos, k - 1, n) + n
    decreases k
  {
    if k > 1 { SkipLast(pos + n, k - 1, n); }
  }

  /** The matches after k, k - 1, ..., 0 atoms. */
  function Ladder(pos: nat, k: nat, n: nat, caps: seq<int>): (rs: seq<Res>)
    ensures |rs| == k + 1
    decreases k
  {
    if k == 0 then [Res(pos, caps)] else Ladder(pos + n, k - 1, n, caps) + [Res(pos, caps)]
  }

  lemma {:induction false} LadderTop(pos: nat, k: nat, n: nat, caps: seq<int>)
    ensures Ladder(pos, k, n, caps)[0] == Res(Skip(pos, k, n), caps)
    ensures k >= 1 ==> Ladder(pos, k, n, caps)[1..] == Ladder(pos, k - 1, n, caps)
    decreases k
  {
    if k >= 1 {
      LadderTop(pos + n, k - 1, n, caps);
      var up := Ladder(pos + n, k - 1, n, caps);
      assert (up + [Res(pos, caps)])[1..] == up[1..] + [Res(pos, caps)];
    }
  }

  /** One round of repeating an atom with at most one match. */
  lemma RepeatOnce(x: Ctx, node: Node, cc: nat, min: nat, opt: nat, unbounded: bool, s: Res, o: Outcome)
    requires Results(x, false, Once(node, cc), s) == AsResults(o, s.caps)
    requires o.Reached? ==> Room(x, false, o.pos) < Room(x, false, s.pos)
    requires min > 0 || unbounded || opt > 0
    ensures Results(x, false, Rep(node, cc, min, opt, unbounded, true), s)
      == if !o.Reached? then (if min > 0 then [] else [s])
         else if min > 0 then Results(x, false, Rep(node, cc, min - 1, opt, unbounded, true), Res(o.pos, s.caps))
         else if unbounded then Results(x, false, Rep(node, cc, 0, 0, true, true), Res(o.pos, s.caps)) + [s]
         else Results(x, false, Rep(node, cc, 0, opt - 1, false, true), Res(o.pos, s.caps)) + [s]
  {
    var next := if min > 0 then Rep(node, cc, min - 1, opt, unbounded, true)
                else if unbounded then Again(node, cc, true, Room(x, false, s.pos))
                else Rep(node, cc, 0, opt - 1, false, true);
    if o.Reached? {
      AllSingle(x, false, next, Res(o.pos, s.caps));
    } else {
      assert All(x, false, next, []) == [];
    }
  }

  /** The matches of `Rep(min, opt, unbounded)` from each state. */
  type Repeats = (nat, nat, bool, Res) -> seq<Res>

  ghost function RepeatsOf(x: Ctx, node: Node, cc: nat): Repeats {
    (min: nat, opt: nat, unbounded: bool, s: Res) => Results(x, false, Rep(node, cc, min, opt, unbounded, true), s)
  }

  ghost predicate Obeys(m: Repeats, f: Stride) {
    forall min: nat, opt: nat, unbounded: bool, s: Res :: ObeysAt(m, f, min, opt, unbounded, s)
  }

  ghost predicate ObeysAt(m: Repeats, f: Stride, min: nat, opt: nat, unbounded: bool, s: Res) {
    m(min, opt, unbounded, s)
    == if min == 0 && opt == 0 && !unbounded then [s]
       else match f(s.pos)
         case Reached(p) =>
           if min > 0 then m(min - 1, opt, unbounded, Res(p, s.caps))
           else m(0, if unbounded then 0 else opt - 1, unbounded, Res(p, s.caps)) + [s]
         case _ => if min > 0 then [] else [s]
  }

  lemma RepeatsObey(x: Ctx, node: Node, cc: nat, c: seq<Instr>)
    requires Simple(x, node, cc, c) && SimpleCount(c) > 0
    ensures Obeys(RepeatsOf(x, node, cc), StrideOf(x, c))
  {
    var m, f := RepeatsOf(x, node, cc), StrideOf(x, c);
    forall min: nat, opt: nat, unbounded: bool, s: Res ensures ObeysAt(m, f, min, opt, unbounded, s) {
      assert SimpleAt(x, node, cc, c, s);
      StraightReads(x, c, s.pos);
      if min > 0 || opt > 0 || unbounded {
        RepeatOnce(x, node, cc, min, opt, unbounded, s, Straight(x, c, s.pos));
      }
    }
  }

  /** The repetition of an atom with a fixed stride, listed. */
  lemma {:induction false} RepeatListed(x: Ctx, m: Repeats, f: Stride, n: nat, min: nat, opt: nat, unbounded: bool, s: Res)
    requires Obeys(m, f) && Fixed(x, f, n)
    ensures var k := Iterations(x, f, s.pos, if unbounded then -1 else min + opt);
      m(min, opt, unbounded, s) == if k < min then [] else Ladder(Skip(s.pos, min, n), k - min, n, s.caps)
    decreases min + (if unbounded then 0 else opt), Room(x, false, s.pos)
  {
    assert ObeysAt(m, f, min, opt, unbounded, s);
    var limit := if unbounded then -1 else min + opt;
    if limit != 0 && f(s.pos).Reached? {
      var q := Res(f(s.pos).pos, s.caps);
      IterationsUnlimited(x, f, q.pos, limit - 1, if unbounded then -1 else limit - 1);
      if min > 0 {
        RepeatListed(x, m, f, n, min - 1, opt, unbounded, q);
      } else {
        RepeatListed(x, m, f, n, 0, if unbounded then 0 else opt - 1, unbounded, q);
      }
    }
  }

  /** All negative limits are the same. */
  lemma {:induction false} IterationsUnlimited(x: Ctx, f: Stride, pos: nat, a: int, b: int)
    requires a == b || (a < 0 && b < 0)
    ensures Iterations(x, f, pos, a) == Iterations(x, f, pos, b)
    decreases Room(x, false, pos)
  {
    var o := f(pos);
    if o.Reached? && pos < o.pos <= |x.text| { IterationsUnlimited(x, f, o.pos, a - 1, b - 1); }
  }

  /** The machine's loop counts the same iterations. */
  lemma {:induction false} GreedyRunCounts(x: Ctx, code: Code, pc: int, f: Stride, n: nat, pos: nat, q: nat, qmax: int)
    requires forall p: nat :: AtomRun(x, code, pc, p) == f(p)
    requires Fixed(x, f, n)
    requires q < qmax || qmax == INF
    ensures var k := Iterations(x, f, pos, if qmax == INF then -1 else qmax - q);
      GreedyRun(x, code, pc, pos, q, qmax) == Times(q + k, Skip(pos, k, n))
    decreases Room(x, false, pos)
  {
    var limit := if qmax == INF then -1 else qmax - q;
    if f(pos).Reached? && !(q + 1 >= qmax && qmax != INF) {
      GreedyRunCounts(x, code, pc, f, n, f(pos).pos, q + 1, qmax);
      IterationsUnlimited(x, f, f(pos).pos, limit - 1, if qmax == INF then -1 else qmax - (q + 1));
    }
  }

  function GreedySaved(h: int, p: nat, caps: seq<int>, stack: seq<int>, k: nat): seq<Saved> {
    if k == 0 then [] else [Saved(GreedyState, h + 1, p, caps, stack, k)]
  }

  /** Unwinding a greedy state offers the remaining matches. */
  lemma {:induction false} GreedyUnwinds(go: Rel, x: Ctx, code: Code, h: int, i: Instr, pos: nat, k: nat,
                                         caps: seq<int>, stack: seq<int>, base: seq<Saved>)
    requires Runs(go, x, code) && code.fetch(h) == Got(i) && i.SimpleGreedyQuant? && i.count >= 0
    ensures Delivers(go, Fail(base + GreedySaved(h, Skip(pos, k, i.count), caps, stack, k)),
                     Ladder(pos, k, i.count, caps)[1..], h + 17 + i.off, stack, base)
    decreases k
  {
    var n, end := i.count, h + 17 + i.off;
    var u := GreedySaved(h, Skip(pos, k, n), caps, stack, k);
    if k == 0 {
      assert base + u == base;
      assert go(Fail(base), Fail(base));
    } else {
      SkipLast(pos, k, n);
      var t := GreedySaved(h, Skip(pos, k - 1, n), caps, stack, k - 1);
      var f := Fail(base + u);
      assert Pop(base + u) == base;
      assert base + [] == base;
      assert Step(x, code, f) == Run(end, Skip(pos, k - 1, n), caps, stack, base + t);
      GreedyUnwinds(go, x, code, h, i, pos, k - 1, caps, stack, base);
      LadderTop(pos, k, n, caps);
      LadderTop(pos, k - 1, n, caps);
      var rest := Ladder(pos, k - 1, n, caps);
      DeliversFirst(go, f, rest[0], rest[1..], end, stack, base, base + t, t);
      assert [rest[0]] + rest[1..] == rest;
    }
  }

  /** The state after the opcode, when the atom ran `k` times. */
  lemma GreedyOpSteps(go: Rel, x: Ctx, code: Code, h: int, i: Instr, f: Stride, r: Res, stack: seq<int>, base: seq<Saved>)
    requires Runs(go, x, code)
    requires i.SimpleGreedyQuant? && 0 <= i.qmin <= i.qmax <= INF && i.qmax > 0 && i.count >= 0
    requires code.fetch(h) == Got(i) && Fixed(x, f, i.count)
    requires forall p: nat :: AtomRun(x, code, h + 17, p) == f(p)
    ensures var k := Iterations(x, f, r.pos, if i.qmax == INF then -1 else i.qmax);
      var p := Skip(r.pos, k, i.count);
      go(AtRes(h, r, stack, base),
         if k < i.qmin then Fail(base)
         else Run(h + 17 + i.off, p, r.caps, stack, base + GreedySaved(h, p, r.caps, stack, k - i.qmin)))
  {
    GreedyRunCounts(x, code, h + 17, f, i.count, r.pos, 0, i.qmax);
    assert base + [] == base;
    var s := Step(x, code, AtRes(h, r, stack, base));
  }

  /** Skipping `min` and then `k - min` atoms. */
  lemma {:induction false} SkipTwice(pos: nat, min: nat, k: nat, n: nat)
    requires min <= k
    ensures Skip(Skip(pos, min, n), k - min, n) == Skip(pos, k, n)
    decreases min
  {
    if min > 0 { SkipTwice(pos + n, min - 1, k - 1, n); }
  }

  /** The opcode offers what repeating the atom through splits would offer. */
  lemma GreedyOpDelivers(go: Rel, x: Ctx, code: Code, h: int, i: Instr, m: Repeats, f: Stride, r: Res, stack: seq<int>, base: seq<Saved>)
    requires Runs(go, x, code)
    requires i.SimpleGreedyQuant? && 0 <= i.qmin <= i.qmax <= INF && i.qmax > 0 && i.count >= 0
    requires code.fetch(h) == Got(i) && Fixed(x, f, i.count) && Obeys(m, f)
    requires forall p: nat :: AtomRun(x, code, h + 17, p) == f(p)
    ensures Delivers(go, AtRes(h, r, stack, base), m(i.qmin, if i.qmax == INF then 0 else i.qmax - i.qmin, i.qmax == INF, r),
                     h + 17 + i.off, stack, base)
  {
    hide Iterations, Skip, Ladder, ObeysAt, AtomRun, Fixed, Step;
    var n, end, min := i.count, h + 17 + i.off, i.qmin;
    var k := Iterations(x, f, r.pos, if i.qmax == INF then -1 else i.qmax);
    var s := AtRes(h, r, stack, base);
    RepeatListed(x, m, f, n, min, if i.qmax == INF then 0 else i.qmax - min, i.qmax == INF, r);
    GreedyOpSteps(go, x, code, h, i, f, r, stack, base);
    if k >= min {
      var low := Skip(r.pos, min, n);
      var all := Ladder(low, k - min, n, r.caps);
      SkipTwice(r.pos, min, k, n);
      LadderTop(low, k - min, n, r.caps);
      GreedyUnwinds(go, x, code, h, i, low, k - min, r.caps, stack, base);
      var t := GreedySaved(h, Skip(r.pos, k, n), r.caps, stack, k - min);
      DeliversFirst(go, s, all[0], all[1..], end, stack, base, base + t, t);
      assert [all[0]] + all[1..] == all;
    }
  }

  lemma GreedyOpPlays(go: Rel, x: Ctx, code: Code, h: int, node: Node, cc: nat, c: seq<Instr>, min: nat, max: int,
                      r: Res, stack: seq<int>, base: seq<Saved>)
    requires Runs(go, x, code) && Simple(x, node, cc, c)
    requires SimpleCount(c) > 0 && min <= max <= INF && max > 0
    requires At(code, h, [SimpleGreedyQuant(Len(c) + 1, min, max, SimpleCount(c))] + (c + [Match]))
    ensures Plays(go, x, false, Rep(node, cc, min, if max == INF then 0 else max - min, max == INF, true), r,
                  h, stack, h + 18 + Len(c), stack, base)
  {
    var i := SimpleGreedyQuant(Len(c) + 1, min, max, SimpleCount(c));
    AtCons(code, h, i, c + [Match]);
    forall p: nat ensures AtomRun(x, code, h + 17, p) == StrideOf(x, c)(p) { AtomRunIsStraight(x, code, h + 17, c, p); }
    StrideFixed(x, c);
    RepeatsObey(x, node, cc, c);
    GreedyOpDelivers(go, x, code, h, i, RepeatsOf(x, node, cc), StrideOf(x, c), r, stack, base);
  }
}
