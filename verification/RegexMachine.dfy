/** The backtracking machine of libregexp_backtrack.c as a step relation on
    states, and the algebra of "this state delivers these matches, in this
    order, at this address". */
module RegexMachine {
  import opened RegexSyntax
  import opened RegexSemantics
  import opened Bytecode
  import opened RegexEmit

  datatype Kind = SplitState | LookState | NegLookState | GreedyState

  /** A saved state (REExecState). */
  datatype Saved = Saved(kind: Kind, pc: int, pos: nat, caps: seq<int>, stack: seq<int>, count: nat)

  /** Registers of the machine. `Fail` and `Succeed` are the two ways into the
      unwinding loop, `NoMatch` and `Matched` the two results. */
  datatype State =
    | Run(pc: int, pos: nat, caps: seq<int>, stack: seq<int>, saved: seq<Saved>)
    | Fail(saved: seq<Saved>)
    | Succeed(caps: seq<int>, saved: seq<Saved>)
    | NoMatch
    | Matched(caps: seq<int>)
    | Stuck

  /** Membership of `c` in a list of inclusive bounds. */
  ghost predicate InBounds(pts: seq<int>, c: int) {
    exists i :: 0 <= i < |pts| / 2 && pts[2 * i] <= c <= pts[2 * i + 1]
  }

  /** Whether a character opcode accepts a character. */
  ghost predicate CharOp(x: Ctx, i: Instr, ch: int) {
    match i
    case Char(c) => Fold(x.env, ch) == c
    case Char32(c) => Fold(x.env, ch) == c
    case Dot => !IsLineTerminator(ch)
    case Any => true
    case Range(p) =>
      var c := Fold(x.env, ch);
      (c >= 0xffff && p != [] && p[|p| - 1] == 0xffff) || InBounds(p, c)
    case Range32(p) => InBounds(p, Fold(x.env, ch))
    case _ => false
  }

  predicate TestOp(x: Ctx, i: Instr, pos: nat) {
    match i
    case LineStart => AtLineStart(x, pos)
    case LineEnd => AtLineEnd(x, pos)
    case WordBoundary => AtWordBoundary(x, pos)
    case NotWordBoundary => !AtWordBoundary(x, pos)
    case _ => false
  }

  datatype Outcome = Missed | Crashed | Reached(pos: nat)

  /** Straight-line execution up to `match`, as in the recursive call with
      no_recurse set. */
  ghost function AtomRun(x: Ctx, code: Code, pc: int, pos: nat): Outcome
    decreases code.len - pc
  {
    if pc >= code.len then Crashed else
    match code.fetch(pc)
    case Bad => Crashed
    case Got(i) =>
      if i.Match? then Reached(pos)
      else if IsCharOp(i) then
        if pos < |x.text| && CharOp(x, i, x.text[pos]) then AtomRun(x, code, pc + Size(i), pos + 1) else Missed
      else if IsTestOp(i) then
        if TestOp(x, i, pos) then AtomRun(x, code, pc + Size(i), pos) else Missed
      else Crashed
  }

  datatype Repeated = Broken | Times(q: nat, pos: nat)

  /** The loop of simple_greedy_quant: as many iterations as the text allows. */
  ghost function GreedyRun(x: Ctx, code: Code, pc: int, pos: nat, q: nat, qmax: int): Repeated
    decreases Room(x, false, pos)
  {
    match AtomRun(x, code, pc, pos)
    case Missed => Times(q, pos)
    case Crashed => Broken
    case Reached(p) =>
      if q + 1 >= qmax && qmax != INF then Times(q + 1, p)
      else if pos < p <= |x.text| then GreedyRun(x, code, pc, p, q + 1, qmax)
      else Broken
  }

  /** Forward comparison with captured text. */
  ghost function CopyForward(x: Ctx, from: int, to: int, pos: nat): Outcome
    decreases to - from
  {
    if from >= to then Reached(pos)
    else if pos >= |x.text| || !(0 <= from < |x.text|) then Missed
    else if Fold(x.env, x.text[from]) != Fold(x.env, x.text[pos]) then Missed
    else CopyForward(x, from + 1, to, pos + 1)
  }

  ghost function CopyBackward(x: Ctx, from: int, to: int, pos: nat): Outcome
    decreases to - from
  {
    if to <= from then Reached(pos)
    else if pos == 0 || pos > |x.text| || !(0 < to <= |x.text|) then Missed
    else if Fold(x.env, x.text[to - 1]) != Fold(x.env, x.text[pos - 1]) then Missed
    else CopyBackward(x, from, to - 1, pos - 1)
  }

  ghost function StepBackRef(x: Ctx, s: State, back: bool, n: int, next: int): State
    requires s.Run?
  {
    if n < 0 || 2 * n + 1 >= |s.caps| then Fail(s.saved)
    else
      var from, to := s.caps[2 * n], s.caps[2 * n + 1];
      if from < 0 || to < 0 then s.(pc := next)
      else
        match if back then CopyBackward(x, from, to, s.pos) else CopyForward(x, from, to, s.pos)
        case Reached(p) => s.(pc := next, pos := p)
        case _ => Fail(s.saved)
  }

  function Top<T>(s: seq<T>): T requires s != [] { s[|s| - 1] }
  function Pop<T>(s: seq<T>): seq<T> requires s != [] { s[..|s| - 1] }

  function Save(s: State, kind: Kind, pc: int, count: nat): Saved
    requires s.Run?
  {
    Saved(kind, pc, s.pos, s.caps, s.stack, count)
  }

  /** One opcode. */
  ghost function StepInstr(x: Ctx, code: Code, s: State, i: Instr): State
    requires s.Run?
  {
    var next := s.pc + Size(i);
    if IsCharOp(i) then
      if s.pos < |x.text| && CharOp(x, i, x.text[s.pos]) then s.(pc := next, pos := s.pos + 1) else Fail(s.saved)
    else if IsTestOp(i) then
      if TestOp(x, i, s.pos) then s.(pc := next) else Fail(s.saved)
    else
      match i
      case Goto(d) => s.(pc := next + d)
      case SplitGotoFirst(d) => s.(pc := next + d, saved := s.saved + [Save(s, SplitState, next, 0)])
      case SplitNextFirst(d) => s.(pc := next, saved := s.saved + [Save(s, SplitState, next + d, 0)])
      case Match => Succeed(s.caps, s.saved)
      case SaveStart(n) => if n < 0 then Stuck else s.(pc := next, caps := SetCap(s.caps, 2 * n, s.pos))
      case SaveEnd(n) => if n < 0 then Stuck else s.(pc := next, caps := SetCap(s.caps, 2 * n + 1, s.pos))
      case SaveReset(a, b) => if a < 0 then Stuck else s.(pc := next, caps := ResetCaps(s.caps, a, b))
      case Loop(d) =>
        if s.stack == [] then Stuck
        else
          var t := Top(s.stack) - 1;
          s.(pc := if t != 0 then next + d else next, stack := Pop(s.stack) + [t])
      case PushI32(v) => s.(pc := next, stack := s.stack + [v])
      case Drop => if s.stack == [] then Stuck else s.(pc := next, stack := Pop(s.stack))
      case BackReference(n) => StepBackRef(x, s, false, n, next)
      case BackwardBackReference(n) => StepBackRef(x, s, true, n, next)
      case Lookahead(d) => s.(pc := next, saved := s.saved + [Save(s, LookState, next + d, 0)])
      case NegativeLookahead(d) => s.(pc := next, saved := s.saved + [Save(s, NegLookState, next + d, 0)])
      case PushCharPos => s.(pc := next, stack := s.stack + [s.pos])
      case BneCharPos(d) =>
        if s.stack == [] then Stuck
        else s.(pc := if Top(s.stack) != s.pos then next + d else next, stack := Pop(s.stack))
      case Prev => if s.pos == 0 then Fail(s.saved) else s.(pc := next, pos := s.pos - 1)
      case SimpleGreedyQuant(d, qmin, qmax, _) =>
        (match GreedyRun(x, code, next, s.pos, 0, qmax)
         case Broken => Stuck
         case Times(q, p) =>
           if q < qmin then Fail(s.saved)
           else
             Run(next + d, p, s.caps, s.stack,
                 if q > qmin then s.saved + [Saved(GreedyState, s.pc + 1, p, s.caps, s.stack, q - qmin)] else s.saved))
      case _ => Stuck
  }

  /** Resume the saved state `t` with captures `caps`. */
  function Resume(t: Saved, caps: seq<int>, saved: seq<Saved>): State {
    Run(t.pc, t.pos, caps, t.stack, saved)
  }

  /** One round of the unwinding loop after a failure. */
  ghost function Unwind(code: Code, saved: seq<Saved>): State {
    if saved == [] then NoMatch
    else
      var t, rest := Top(saved), Pop(saved);
      match t.kind
      case SplitState => Resume(t, t.caps, rest)
      case NegLookState => Resume(t, t.caps, rest)
      case LookState => Fail(rest)
      case GreedyState =>
        match code.fetch(t.pc - 1)
        case Got(SimpleGreedyQuant(d, _, _, n)) =>
          if t.count == 0 || t.pos < n || n < 0 then Stuck
          else
            var p := t.pos - n;
            Run(t.pc + 16 + d, p, t.caps, t.stack,
                if t.count == 1 then rest else rest + [t.(pos := p, count := t.count - 1)])
        case _ => Stuck
  }

  /** One round of the unwinding loop after a match. */
  function Accept(caps: seq<int>, saved: seq<Saved>): State {
    if saved == [] then Matched(caps)
    else
      var t, rest := Top(saved), Pop(saved);
      match t.kind
      case SplitState => Succeed(caps, rest)
      case GreedyState => Succeed(caps, rest)
      case LookState => Resume(t, caps, rest)
      case NegLookState => Fail(rest)
  }

  ghost function Step(x: Ctx, code: Code, s: State): State {
    match s
    case Run(pc, _, _, _, _) =>
      (match code.fetch(pc)
       case Bad => Stuck
       case Got(i) => StepInstr(x, code, s, i))
    case Fail(saved) => Unwind(code, saved)
    case Succeed(caps, saved) => Accept(caps, saved)
    case _ => s
  }

  ghost function Steps(x: Ctx, code: Code, s: State, n: nat): State
    decreases n
  {
    if n == 0 then s else Steps(x, code, Step(x, code, s), n - 1)
  }

  ghost predicate Reaches(x: Ctx, code: Code, s: State, t: State) {
    exists n: nat :: Steps(x, code, s, n) == t
  }

  lemma {:induction false} StepsAdd(x: Ctx, code: Code, s: State, m: nat, n: nat)
    ensures Steps(x, code, s, m + n) == Steps(x, code, Steps(x, code, s, m), n)
    decreases m
  {
    if m > 0 {
      StepsAdd(x, code, Step(x, code, s), m - 1, n);
    }
  }

  lemma ReachesTrans(x: Ctx, code: Code, s: State, t: State, u: State)
    requires Reaches(x, code, s, t) && Reaches(x, code, t, u)
    ensures Reaches(x, code, s, u)
  {
    var m: nat :| Steps(x, code, s, m) == t;
    var n: nat :| Steps(x, code, t, n) == u;
    StepsAdd(x, code, s, m, n);
    assert Steps(x, code, s, m + n) == u;
  }

  /** A relation between states: reachability, seen only through `Runs`. */
  type Rel = (State, State) -> bool

  predicate Via(s: State, t: State, u: State) { true }

  ghost predicate Transitive(go: Rel) {
    && (forall s :: go(s, s))
    && (forall s, t, u {:trigger Via(s, t, u)} :: go(s, t) && go(t, u) ==> go(s, u))
  }

  /** `go` is reflexive, transitive, and contains every machine step. */
  ghost predicate Runs(go: Rel, x: Ctx, code: Code) {
    Transitive(go) && forall s {:trigger Step(x, code, s)} :: go(s, Step(x, code, s))
  }

  ghost function Reachable(x: Ctx, code: Code): Rel {
    (s, t) => Reaches(x, code, s, t)
  }

  lemma ReachesRuns(x: Ctx, code: Code)
    ensures Runs(Reachable(x, code), x, code)
  {
    var go := Reachable(x, code);
    forall s ensures go(s, s) { assert Steps(x, code, s, 0) == s; }
    forall s ensures go(s, Step(x, code, s)) {
      assert Steps(x, code, s, 1) == Steps(x, code, Step(x, code, s), 0);
    }
    forall s, t, u | go(s, t) && go(t, u) ensures go(s, u) { ReachesTrans(x, code, s, t, u); }
  }
}

/** What it takes to say "this state offers these matches, in this order, at
    this address", and how such statements combine. Nothing here depends on the
    individual opcodes. */
module RegexDelivery {
  import opened RegexSyntax
  import opened RegexSemantics
  import opened RegexMachine

  /** Saved states that a successful lookahead throws away. */
  predicate Discardable(t: seq<Saved>) {
    forall k :: 0 <= k < |t| ==> t[k].kind.SplitState? || t[k].kind.GreedyState?
  }

  /** The machine offers the matches `rs` one after the other at `pc`, with the
      counter stack `stack`: it runs to the first one; when what follows fails,
      it runs to the next one; after the last one it fails with exactly the
      saved states `base`. */
  ghost predicate Delivers(go: Rel, s: State, rs: seq<Res>, pc: int, stack: seq<int>, base: seq<Saved>)
    decreases |rs|
  {
    if rs == [] then go(s, Fail(base))
    else exists t :: Offers(go, s, rs[0], pc, stack, base, t) && Delivers(go, Fail(base + t), rs[1..], pc, stack, base)
  }

  ghost predicate Offers(go: Rel, s: State, r: Res, pc: int, stack: seq<int>, base: seq<Saved>, t: seq<Saved>) {
    Discardable(t) && go(s, Run(pc, r.pos, r.caps, stack, base + t))
  }

  lemma Chain(go: Rel, s: State, t: State, u: State)
    requires Transitive(go) && go(s, t) && go(t, u)
    ensures go(s, u)
  {
    assert Via(s, t, u);
  }

  lemma DeliversAfter(go: Rel, s0: State, s: State, rs: seq<Res>, pc: int, stack: seq<int>, base: seq<Saved>)
    requires Transitive(go) && go(s0, s) && Delivers(go, s, rs, pc, stack, base)
    ensures Delivers(go, s0, rs, pc, stack, base)
  {
    if rs == [] {
      Chain(go, s0, s, Fail(base));
    } else {
      var t :| Offers(go, s, rs[0], pc, stack, base, t) && Delivers(go, Fail(base + t), rs[1..], pc, stack, base);
      Chain(go, s0, s, Run(pc, rs[0].pos, rs[0].caps, stack, base + t));
      assert Offers(go, s0, rs[0], pc, stack, base, t);
    }
  }

  lemma DeliversOne(go: Rel, r: Res, pc: int, stack: seq<int>, base: seq<Saved>)
    requires Transitive(go)
    ensures Delivers(go, Run(pc, r.pos, r.caps, stack, base), [r], pc, stack, base)
  {
    var t: seq<Saved> := [];
    assert base + t == base;
    assert go(Run(pc, r.pos, r.caps, stack, base), Run(pc, r.pos, r.caps, stack, base));
    assert [r][1..] == [];
    assert go(Fail(base), Fail(base));
    assert Offers(go, Run(pc, r.pos, r.caps, stack, base), [r][0], pc, stack, base, t);
  }

  lemma DeliversFirst(go: Rel, s: State, r: Res, rs: seq<Res>, pc: int, stack: seq<int>,
                      base: seq<Saved>, above: seq<Saved>, t: seq<Saved>)
    requires above == base + t && Discardable(t)
    requires go(s, Run(pc, r.pos, r.caps, stack, above))
    requires Delivers(go, Fail(above), rs, pc, stack, base)
    ensures Delivers(go, s, [r] + rs, pc, stack, base)
  {
    var all := [r] + rs;
    assert all[0] == r && all[1..] == rs;
    assert Offers(go, s, all[0], pc, stack, base, t);
  }

  /** After the matches `a` above the saved states `above`, the machine goes on
      with the matches `b` above `base`. */
  lemma {:induction false} DeliversAppend(go: Rel, s: State, a: seq<Res>, b: seq<Res>, pc: int, stack: seq<int>,
                                          base: seq<Saved>, above: seq<Saved>, t: seq<Saved>)
    requires Transitive(go) && Discardable(t) && above == base + t
    requires Delivers(go, s, a, pc, stack, above)
    requires Delivers(go, Fail(above), b, pc, stack, base)
    ensures Delivers(go, s, a + b, pc, stack, base)
    decreases |a|
  {
    hide Delivers, Discardable;
    if a == [] {
      assert a + b == b;
      DeliversNil(go, s, pc, stack, above);
      DeliversAfter(go, s, Fail(above), b, pc, stack, base);
    } else {
      var u := OfferOf(go, s, a, pc, stack, above);
      var higher := above + u;
      DeliversAppend(go, Fail(higher), a[1..], b, pc, stack, base, above, t);
      assert higher == base + (t + u);
      DiscardBoth(t, u);
      DeliversFirst(go, s, a[0], a[1..] + b, pc, stack, base, higher, t + u);
      assert a + b == [a[0]] + (a[1..] + b);
    }
  }

  lemma DeliversNil(go: Rel, s: State, pc: int, stack: seq<int>, base: seq<Saved>)
    ensures Delivers(go, s, [], pc, stack, base) <==> go(s, Fail(base))
  {
  }

  lemma DiscardBoth(t: seq<Saved>, u: seq<Saved>)
    requires Discardable(t) && Discardable(u)
    ensures Discardable(t + u)
  {
  }

  lemma OfferOf(go: Rel, s: State, rs: seq<Res>, pc: int, stack: seq<int>, base: seq<Saved>) returns (t: seq<Saved>)
    requires rs != [] && Delivers(go, s, rs, pc, stack, base)
    ensures Discardable(t) && go(s, Run(pc, rs[0].pos, rs[0].caps, stack, base + t))
    ensures Delivers(go, Fail(base + t), rs[1..], pc, stack, base)
  {
    t :| Offers(go, s, rs[0], pc, stack, base, t) && Delivers(go, Fail(base + t), rs[1..], pc, stack, base);
  }

  /** The machine at `pc` behaves like the plan `p` from `r`, ending at `pc'`. */
  ghost predicate Plays(go: Rel, x: Ctx, back: bool, p: Plan, r: Res, pc: int, stack: seq<int>,
                        pc': int, stack': seq<int>, base: seq<Saved>) {
    Delivers(go, Run(pc, r.pos, r.caps, stack, base), Results(x, back, p, r), pc', stack', base)
  }

  /** Every match of a first plan is continued by a second plan. */
  lemma {:induction false} DeliversAll(go: Rel, x: Ctx, back: bool, s: State, rs: seq<Res>, pc: int, stack: seq<int>,
                                       p: Plan, pc': int, stack': seq<int>, base: seq<Saved>)
    requires Transitive(go)
    requires Delivers(go, s, rs, pc, stack, base)
    requires forall r, t :: r in rs && Discardable(t) ==> Plays(go, x, back, p, r, pc, stack, pc', stack', base + t)
    ensures Delivers(go, s, All(x, back, p, rs), pc', stack', base)
    decreases |rs|
  {
    if rs != [] {
      var t :| Offers(go, s, rs[0], pc, stack, base, t) && Delivers(go, Fail(base + t), rs[1..], pc, stack, base);
      var m := Run(pc, rs[0].pos, rs[0].caps, stack, base + t);
      assert forall r :: r in rs[1..] ==> r in rs;
      DeliversAll(go, x, back, Fail(base + t), rs[1..], pc, stack, p, pc', stack', base);
      assert rs[0] in rs;
      assert Plays(go, x, back, p, rs[0], pc, stack, pc', stack', base + t);
      DeliversAfter(go, s, m, Results(x, back, p, rs[0]), pc', stack', base + t);
      DeliversAppend(go, s, Results(x, back, p, rs[0]), All(x, back, p, rs[1..]), pc', stack', base, base + t, t);
    }
  }

  /** Every match is carried on to another address by the same change. */
  lemma {:induction false} DeliversOn(go: Rel, s: State, rs: seq<Res>, pc: int, stack: seq<int>,
                                      rs': seq<Res>, pc': int, stack': seq<int>, base: seq<Saved>)
    requires Transitive(go)
    requires Delivers(go, s, rs, pc, stack, base)
    requires |rs'| == |rs|
    requires forall i, t :: 0 <= i < |rs| && Discardable(t) ==>
      go(Run(pc, rs[i].pos, rs[i].caps, stack, base + t), Run(pc', rs'[i].pos, rs'[i].caps, stack', base + t))
    ensures Delivers(go, s, rs', pc', stack', base)
    decreases |rs|
  {
    if rs != [] {
      var t :| Offers(go, s, rs[0], pc, stack, base, t) && Delivers(go, Fail(base + t), rs[1..], pc, stack, base);
      Chain(go, s, Run(pc, rs[0].pos, rs[0].caps, stack, base + t), Run(pc', rs'[0].pos, rs'[0].caps, stack', base + t));
      assert Offers(go, s, rs'[0], pc', stack', base, t);
      DeliversOn(go, Fail(base + t), rs[1..], pc, stack, rs'[1..], pc', stack', base);
    }
  }

  /** A split: first the matches `a`, then, from the saved state, `b`. */
  lemma DeliversSplit(go: Rel, s: State, u: Saved, a: seq<Res>, b: seq<Res>, pc: int, stack: seq<int>, base: seq<Saved>)
    requires Transitive(go) && u.kind.SplitState?
    requires go(Fail(base + [u]), Resume(u, u.caps, base))
    requires Delivers(go, s, a, pc, stack, base + [u])
    requires Delivers(go, Resume(u, u.caps, base), b, pc, stack, base)
    ensures Delivers(go, s, a + b, pc, stack, base)
  {
    DeliversAfter(go, Fail(base + [u]), Resume(u, u.caps, base), b, pc, stack, base);
    DeliversAppend(go, s, a, b, pc, stack, base, base + [u], [u]);
  }
}
