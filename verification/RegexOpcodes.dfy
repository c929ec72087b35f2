/** What single opcodes and the loop skeletons of re_parse_term do, stated
    through the abstract reachability relation. */
module RegexOpcodes {
  import opened RegexSyntax
  import opened RegexSemantics
  import opened Bytecode
  import opened RegexEmit
  import opened RegexMachine
  import opened RegexDelivery
  import opened RegexProgress
  import opened RegexLoops

  lemma Executes(go: Rel, x: Ctx, code: Code, s: State, i: Instr)
    requires Runs(go, x, code) && s.Run? && code.fetch(s.pc) == Got(i)
    ensures go(s, StepInstr(x, code, s, i))
  {
    hide StepInstr;
    assert Step(x, code, s) == StepInstr(x, code, s, i);
  }

  lemma RunsReady(go: Rel, x: Ctx, code: Code)
    requires Runs(go, x, code)
    ensures Ready(go)
  {
    forall u: Saved, base: seq<Saved> ensures UnwindsTo(go, u, base) {
      if u.kind.SplitState? {
        assert Pop(base + [u]) == base;
        assert Step(x, code, Fail(base + [u])) == Resume(u, u.caps, base);
      }
    }
  }

  lemma SplitHeads(go: Rel, x: Ctx, code: Code, greedy: bool, h: int, off: int)
    requires Runs(go, x, code) && code.fetch(h) == Got(Split(greedy, off))
    ensures Heads(go, greedy, false, h, h + 5, h + 5 + off)
  {
    var a, e := h + 5, h + 5 + off;
    forall r: Res, stack: seq<int>, base: seq<Saved> ensures Head(go, greedy, false, h, a, e, r, stack, base) {
      Executes(go, x, code, AtRes(h, r, stack, base), Split(greedy, off));
      assert stack + Mark(false, r.pos) == stack;
    }
  }

  /** The split at the end of a `+` loop: the atom lies behind it. */
  lemma BackSplitHeads(go: Rel, x: Ctx, code: Code, greedy: bool, h: int, off: int)
    requires Runs(go, x, code) && code.fetch(h) == Got(Split(!greedy, off))
    ensures Heads(go, greedy, false, h, h + 5 + off, h + 5)
  {
    var a, e := h + 5 + off, h + 5;
    forall r: Res, stack: seq<int>, base: seq<Saved> ensures Head(go, greedy, false, h, a, e, r, stack, base) {
      Executes(go, x, code, AtRes(h, r, stack, base), Split(!greedy, off));
      assert stack + Mark(false, r.pos) == stack;
    }
  }

  lemma CheckedHeads(go: Rel, x: Ctx, code: Code, h: int, off: int)
    requires Runs(go, x, code) && code.fetch(h) == Got(Split(true, off)) && code.fetch(h + 5) == Got(PushCharPos)
    ensures Heads(go, true, true, h, h + 6, h + 5 + off)
  {
    var a, e := h + 6, h + 5 + off;
    forall r: Res, stack: seq<int>, base: seq<Saved> ensures Head(go, true, true, h, a, e, r, stack, base) {
      var s := AtRes(h, r, stack, base);
      var t := AtRes(h + 5, r, stack, base + [SplitAt(h + 5 + off, r, stack)]);
      Executes(go, x, code, s, Split(true, off));
      Executes(go, x, code, t, PushCharPos);
      Chain(go, s, t, AtRes(h + 6, r, stack + [r.pos], base + [SplitAt(h + 5 + off, r, stack)]));
    }
  }

  lemma GotoTails(go: Rel, x: Ctx, code: Code, z: int, d: int, exit: int)
    requires Runs(go, x, code) && code.fetch(z) == Got(Goto(d))
    ensures Tails(go, false, z, z + 5 + d, exit)
  {
    var h := z + 5 + d;
    forall start: nat, r: Res, stack: seq<int>, base: seq<Saved> ensures Tail(go, false, z, h, exit, start, r, stack, base) {
      Executes(go, x, code, AtRes(z, r, stack, base), Goto(d));
      assert stack + Mark(false, start) == stack;
    }
  }

  lemma CheckedTails(go: Rel, x: Ctx, code: Code, z: int, d: int)
    requires Runs(go, x, code) && code.fetch(z) == Got(BneCharPos(d))
    ensures Tails(go, true, z, z + 5 + d, z + 5)
  {
    var h, e := z + 5 + d, z + 5;
    forall start: nat, r: Res, stack: seq<int>, base: seq<Saved> ensures Tail(go, true, z, h, e, start, r, stack, base) {
      Executes(go, x, code, AtRes(z, r, stack + [start], base), BneCharPos(d));
      assert Pop(stack + [start]) == stack;
    }
  }

  lemma LoopCounts(go: Rel, x: Ctx, code: Code, z: int, d: int)
    requires Runs(go, x, code) && code.fetch(z) == Got(Loop(d)) && code.fetch(z + 5) == Got(Drop)
    ensures Counts(go, z, z + 5 + d, z + 5) && Drops(go, z + 5, z + 6)
  {
    var h, drop, end := z + 5 + d, z + 5, z + 6;
    forall k: int, r: Res, stack: seq<int>, base: seq<Saved> ensures CountsAt(go, z, h, drop, k, r, stack, base) {
      Executes(go, x, code, AtRes(z, r, stack + [k], base), Loop(d));
      assert Pop(stack + [k]) == stack;
    }
    forall k: int, r: Res, stack: seq<int>, base: seq<Saved> ensures DropsAt(go, drop, end, k, r, stack, base) {
      Executes(go, x, code, AtRes(z + 5, r, stack + [k], base), Drop);
      assert Pop(stack + [k]) == stack;
    }
  }

  /** The atom plays wherever its code lies. */
  ghost predicate Portable(go: Rel, x: Ctx, code: Code, back: bool, p: Plan, c: seq<Instr>) {
    forall pc :: At(code, pc, c) ==> Atom(go, x, back, p, pc, pc + Len(c))
  }

  lemma Pushes(go: Rel, x: Ctx, code: Code, h: int, k: int, r: Res, stack: seq<int>, base: seq<Saved>)
    requires Runs(go, x, code) && code.fetch(h) == Got(PushI32(k))
    ensures go(AtRes(h, r, stack, base), AtRes(h + 5, r, stack + [k], base))
  {
    Executes(go, x, code, AtRes(h, r, stack, base), PushI32(k));
  }

  lemma StarLayout(code: Code, h: int, c: seq<Instr>, greedy: bool, check: bool)
    requires At(code, h, StarCode(c, greedy, check))
    ensures var n, a := Len(c), if check then h + 6 else h + 5;
      && code.fetch(h) == Got(Split(greedy, if check then n + 6 else n + 5))
      && (check ==> code.fetch(h + 5) == Got(PushCharPos))
      && At(code, a, c)
      && code.fetch(a + n) == Got(if check then BneCharPos(-(n + 11)) else Goto(-(n + 10)))
      && h + Len(StarCode(c, greedy, check)) == a + n + 5
  {
    hide At, Len;
    var n: int := Len(c);
    var a := if check then h + 6 else h + 5;
    var tail := if check then BneCharPos(-(n + 11)) else Goto(-(n + 10));
    if check {
      assert StarCode(c, greedy, check) == [Split(greedy, n + 6)] + ([PushCharPos] + (c + [tail]));
      AtCons(code, h, Split(greedy, n + 6), [PushCharPos] + (c + [tail]));
      AtCons(code, h + 5, PushCharPos, c + [tail]);
    } else {
      assert StarCode(c, greedy, check) == [Split(greedy, n + 5)] + (c + [tail]);
      AtCons(code, h, Split(greedy, n + 5), c + [tail]);
    }
    AtConcat(code, a, c, [tail]);
    AtLast(code, a + n, tail);
  }

  lemma AtLast(code: Code, pc: int, i: Instr)
    requires At(code, pc, [i])
    ensures code.fetch(pc) == Got(i) && Len([i]) == Size(i)
  {
    assert [i] == [i] + [];
    AtCons(code, pc, i, []);
  }

  lemma StarCodePlays(go: Rel, x: Ctx, code: Code, back: bool, node: Node, cc: nat, c: seq<Instr>, greedy: bool, check: bool, h: int)
    requires Runs(go, x, code) && Portable(go, x, code, back, Once(node, cc), c)
    requires At(code, h, StarCode(c, greedy, check))
    requires check ==> greedy
    requires check || Advances(x, back, node, cc)
    ensures Atom(go, x, back, Rep(node, cc, 0, 0, true, greedy), h, h + Len(StarCode(c, greedy, check)))
  {
    hide Advances, Results, Plays, Heads, Tails, Unwinds, At, Len, StarCode, Step;
    RunsReady(go, x, code);
    StarLayout(code, h, c, greedy, check);
    var n: int := Len(c);
    var a, exit := if check then h + 6 else h + 5, h + Len(StarCode(c, greedy, check));
    if check { CheckedHeads(go, x, code, h, n + 6); CheckedTails(go, x, code, a + n, -(n + 11)); }
    else { SplitHeads(go, x, code, greedy, h, n + 5); GotoTails(go, x, code, a + n, -(n + 10), exit); }
    assert Atom(go, x, back, Once(node, cc), a, a + n);
    forall r: Res, stack: seq<int>, base: seq<Saved> | InText(x, r)
      ensures Plays(go, x, back, Rep(node, cc, 0, 0, true, greedy), r, h, stack, exit, stack, base)
    {
      StarPlays(go, x, back, node, cc, greedy, check, h, a, a + n, exit, r, stack, base);
    }
  }

  /** `atom; loop; drop` after `before`. */
  lemma LoopLayout(code: Code, a: int, c: seq<Instr>, d: int)
    requires At(code, a, c + [Loop(d), Drop])
    ensures At(code, a, c)
    ensures code.fetch(a + Len(c)) == Got(Loop(d)) && code.fetch(a + Len(c) + 5) == Got(Drop)
    ensures Len(c + [Loop(d), Drop]) == Len(c) + 6
  {
    hide At, Len;
    assert [Loop(d), Drop] == [Loop(d)] + [Drop];
    AtConcat(code, a, c, [Loop(d)] + [Drop]);
    AtCons(code, a + Len(c), Loop(d), [Drop]);
    AtLast(code, a + Len(c) + 5, Drop);
  }

  lemma UpToLayout(code: Code, h: int, c: seq<Instr>, greedy: bool, k: int)
    requires At(code, h, UpToCode(c, greedy, k))
    ensures var n, z := Len(c), h + 10 + Len(c);
      && code.fetch(h) == Got(PushI32(k)) && code.fetch(h + 5) == Got(Split(greedy, n + 5))
      && At(code, h + 10, c)
      && code.fetch(z) == Got(Loop(-(n + 10))) && code.fetch(z + 5) == Got(Drop)
      && h + Len(UpToCode(c, greedy, k)) == z + 6
  {
    hide At, Len;
    var n: int := Len(c);
    var rest := c + [Loop(-(n + 10)), Drop];
    assert UpToCode(c, greedy, k) == [PushI32(k)] + ([Split(greedy, n + 5)] + rest);
    AtCons(code, h, PushI32(k), [Split(greedy, n + 5)] + rest);
    AtCons(code, h + 5, Split(greedy, n + 5), rest);
    LoopLayout(code, h + 10, c, -(n + 10));
  }

  lemma UpToCodePlays(go: Rel, x: Ctx, code: Code, back: bool, node: Node, cc: nat, c: seq<Instr>, greedy: bool, k: nat, h: int)
    requires Runs(go, x, code) && Portable(go, x, code, back, Once(node, cc), c)
    requires At(code, h, UpToCode(c, greedy, k)) && k >= 1
    ensures Atom(go, x, back, Rep(node, cc, 0, k, false, greedy), h, h + Len(UpToCode(c, greedy, k)))
  {
    hide Results, Plays, Heads, Unwinds, Counts, Drops, At, Len, UpToCode, Step;
    RunsReady(go, x, code);
    UpToLayout(code, h, c, greedy, k);
    var n: int, z: int := Len(c), h + 10 + Len(c);
    SplitHeads(go, x, code, greedy, h + 5, n + 5);
    LoopCounts(go, x, code, z, -(n + 10));
    assert Atom(go, x, back, Once(node, cc), h + 10, z);
    var end := z + 6;
    forall r: Res, stack: seq<int>, base: seq<Saved> | InText(x, r)
      ensures Plays(go, x, back, Rep(node, cc, 0, k, false, greedy), r, h, stack, end, stack, base)
    {
      Pushes(go, x, code, h, k, r, stack, base);
      UpToPlays(go, x, back, node, cc, greedy, k, h + 5, h + 10, z, z + 5, z + 6, r, stack, base);
      PlaysAfter(go, x, back, Rep(node, cc, 0, k, false, greedy), r, h, stack, h + 5, stack + [k], z + 6, stack, base);
    }
  }

  lemma PlaysAfter(go: Rel, x: Ctx, back: bool, p: Plan, r: Res, pc0: int, stk0: seq<int>, pc: int, stk: seq<int>, end: int, stack: seq<int>, base: seq<Saved>)
    requires Transitive(go) && go(AtRes(pc0, r, stk0, base), AtRes(pc, r, stk, base)) && Plays(go, x, back, p, r, pc, stk, end, stack, base)
    ensures Plays(go, x, back, p, r, pc0, stk0, end, stack, base)
  {
    hide Results;
    DeliversAfter(go, AtRes(pc0, r, stk0, base), AtRes(pc, r, stk, base), Results(x, back, p, r), end, stack, base);
  }

  /** Mandatory iterations, then the rest of the repetition. */
  lemma ExactCodePlays(go: Rel, x: Ctx, code: Code, back: bool, node: Node, cc: nat, c: seq<Instr>,
                       k: nat, opt: nat, unbounded: bool, greedy: bool, h: int, end: int)
    requires Runs(go, x, code) && Portable(go, x, code, back, Once(node, cc), c)
    requires At(code, h, ExactCode(c, k)) && k >= 1
    requires Atom(go, x, back, Rep(node, cc, 0, opt, unbounded, greedy), h + Len(ExactCode(c, k)), end)
    ensures Atom(go, x, back, Rep(node, cc, k, opt, unbounded, greedy), h, end)
  {
    hide Results, Plays, Unwinds, Counts, Drops, At, Len, Step;
    RunsReady(go, x, code);
    var p := Rep(node, cc, k, opt, unbounded, greedy);
    if k == 1 {
      forall r: Res, stack: seq<int>, base: seq<Saved> | InText(x, r) ensures Plays(go, x, back, p, r, h, stack, end, stack, base) {
        OncePlays(go, x, back, node, cc, opt, unbounded, greedy, h, h + Len(c), end, r, stack, base);
      }
    } else {
      var n: int, z: int := Len(c), h + 5 + Len(c);
      var rest := c + [Loop(-(n + 5)), Drop];
      assert ExactCode(c, k) == [PushI32(k)] + rest;
      AtCons(code, h, PushI32(k), rest);
      LoopLayout(code, h + 5, c, -(n + 5));
      LoopCounts(go, x, code, z, -(n + 5));
      assert Atom(go, x, back, Once(node, cc), h + 5, z);
      forall r: Res, stack: seq<int>, base: seq<Saved> | InText(x, r) ensures Plays(go, x, back, p, r, h, stack, end, stack, base) {
        Pushes(go, x, code, h, k, r, stack, base);
        ExactPlays(go, x, back, node, cc, k, opt, unbounded, greedy, h + 5, z, z + 5, z + 6, end, r, stack, base);
        PlaysAfter(go, x, back, p, r, h, stack, h + 5, stack + [k], end, stack, base);
      }
    }
  }

  /** `atom; split back`: a `+` loop. */
  lemma PlusCodePlays(go: Rel, x: Ctx, code: Code, back: bool, node: Node, cc: nat, c: seq<Instr>, greedy: bool, h: int)
    requires Runs(go, x, code) && Portable(go, x, code, back, Once(node, cc), c)
    requires At(code, h, c + [Split(!greedy, -(Len(c) + 5))])
    requires Advances(x, back, node, cc)
    ensures Atom(go, x, back, Rep(node, cc, 1, 0, true, greedy), h, h + Len(c) + 5)
  {
    hide Advances, Results, Plays, Head, Tail, UnwindsTo;
    RunsReady(go, x, code);
    var n: int, z: int := Len(c), h + Len(c);
    var i := Split(!greedy, -(n + 5));
    AtConcat(code, h, c, [i]);
    assert [i] == [i] + [];
    AtCons(code, z, i, []);
    BackSplitHeads(go, x, code, greedy, z, -(n + 5));
    Idle(go, z, z + 5);
    assert Atom(go, x, back, Once(node, cc), h, z);
    var end := z + 5;
    forall r: Res, stack: seq<int>, base: seq<Saved> | InText(x, r)
      ensures Plays(go, x, back, Rep(node, cc, 0, 0, true, greedy), r, z, stack, end, stack, base)
    {
      StarPlays(go, x, back, node, cc, greedy, false, z, h, z, z + 5, r, stack, base);
    }
    forall r: Res, stack: seq<int>, base: seq<Saved> | InText(x, r)
      ensures Plays(go, x, back, Rep(node, cc, 1, 0, true, greedy), r, h, stack, end, stack, base)
    {
      OncePlays(go, x, back, node, cc, 0, true, greedy, h, z, z + 5, r, stack, base);
    }
  }

  /** A loop whose atom ends at its head has no tail to execute. */
  lemma Idle(go: Rel, z: int, exit: int)
    requires Transitive(go)
    ensures Tails(go, false, z, z, exit)
  {
    forall start: nat, r: Res, stack: seq<int>, base: seq<Saved> ensures Tail(go, false, z, z, exit, start, r, stack, base) {
      assert stack + Mark(false, start) == stack;
      assert go(AtRes(z, r, stack, base), AtRes(z, r, stack, base));
    }
  }

  lemma OptionalCodePlays(go: Rel, x: Ctx, code: Code, back: bool, node: Node, cc: nat, c: seq<Instr>, greedy: bool, h: int)
    requires Runs(go, x, code) && Portable(go, x, code, back, Once(node, cc), c)
    requires At(code, h, [Split(greedy, Len(c))] + c)
    ensures Atom(go, x, back, Rep(node, cc, 0, 1, false, greedy), h, h + 5 + Len(c))
  {
    hide Results, Plays, Head, UnwindsTo;
    RunsReady(go, x, code);
    var z := h + 5 + Len(c);
    AtCons(code, h, Split(greedy, Len(c)), c);
    SplitHeads(go, x, code, greedy, h, Len(c));
    assert Atom(go, x, back, Once(node, cc), h + 5, z);
    forall r: Res, stack: seq<int>, base: seq<Saved> | InText(x, r)
      ensures Plays(go, x, back, Rep(node, cc, 0, 1, false, greedy), r, h, stack, z, stack, base)
    {
      OptionalPlays(go, x, back, node, cc, greedy, h, h + 5, z, r, stack, base);
    }
  }
}
