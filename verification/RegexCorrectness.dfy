/** Compiled code plays the pattern it was compiled from. */
module RegexCorrectness {
  import opened RegexSyntax
  import opened RegexSemantics
  import opened RegexEquations
  import opened Bytecode
  import opened RegexEmit
  import opened RegexMachine
  import opened RegexDelivery
  import opened RegexProgress
  import opened RegexLoops
  import opened RegexClass
  import opened RegexGreedy
  import opened RegexOpcodes

  /** Unbounded loops either carry the zero-advance check or have an atom that
      always moves. Only greedy loops carry the check, and not when their atom
      refers to a capture of its own. */
  ghost predicate Supported(x: Ctx, back: bool, r: Node, cc: nat)
    decreases r
  {
    match r
    case Cat(a, b) => Supported(x, back, a, cc) && Supported(x, back, b, cc + NCaps(a))
    case Alt(a, b) => Supported(x, back, a, cc) && Supported(x, back, b, cc + NCaps(a))
    case Group(b) => Supported(x, back, b, cc + 1)
    case Look(_, behind, b) => Supported(x, behind, b, cc)
    case Quant(b, min, max, greedy) =>
      Supported(x, back, b, cc)
      && (max == INF ==> NeedsCheck(Emit(x.env, b, back, cc), greedy) || Advances(x, back, b, cc))
    case _ => true
  }

  /** Straight-line code: one step that keeps or changes the match state. */
  lemma OneStep(go: Rel, x: Ctx, code: Code, back: bool, p: Plan, r: Res, pc: int, i: Instr, stack: seq<int>, base: seq<Saved>)
    requires Runs(go, x, code) && code.fetch(pc) == Got(i)
    requires var s := AtRes(pc, r, stack, base);
      var rs := Results(x, back, p, r);
      || (rs == [] && StepInstr(x, code, s, i) == Fail(base))
      || (|rs| == 1 && StepInstr(x, code, s, i) == AtRes(pc + Size(i), rs[0], stack, base))
    ensures Plays(go, x, back, p, r, pc, stack, pc + Size(i), stack, base)
  {
    hide StepInstr, Results;
    var s := AtRes(pc, r, stack, base);
    var rs := Results(x, back, p, r);
    Executes(go, x, code, s, i);
    if rs != [] {
      assert rs == [rs[0]];
      DeliversOne(go, rs[0], pc + Size(i), stack, base);
      DeliversAfter(go, s, AtRes(pc + Size(i), rs[0], stack, base), rs, pc + Size(i), stack, base);
    }
  }

  lemma TestPlays(go: Rel, x: Ctx, code: Code, back: bool, r: Node, cc: nat, pc: int)
    requires Runs(go, x, code) && (r.Bol? || r.Eol? || r.WordB?)
    requires At(code, pc, Emit(x.env, r, back, cc))
    ensures Atom(go, x, back, Once(r, cc), pc, pc + Len(Emit(x.env, r, back, cc)))
  {
    var i := Emit(x.env, r, back, cc)[0];
    assert Emit(x.env, r, back, cc) == [i];
    AtLast(code, pc, i);
    var end := pc + Size(i);
    forall s: Res, stack: seq<int>, base: seq<Saved> ensures Plays(go, x, back, Once(r, cc), s, pc, stack, end, stack, base) {
      OneStep(go, x, code, back, Once(r, cc), s, pc, i, stack, base);
    }
  }

  /** A character: one opcode forward; prev, opcode, prev backward. */
  lemma CharPlays(go: Rel, x: Ctx, code: Code, back: bool, r: Node, cc: nat, pc: int)
    requires Runs(go, x, code) && (r.Chr? || r.AnyChar? || r.Class?)
    requires WellFormed(r) && WellFormedCtx(x)
    requires At(code, pc, Emit(x.env, r, back, cc))
    ensures Atom(go, x, back, Once(r, cc), pc, pc + Len(Emit(x.env, r, back, cc)))
  {
    hide At, Len, Plays, Results, WellFormedCtx, CharOp;
    var i := Emit(x.env, r, false, cc)[0];
    assert Emit(x.env, r, false, cc) == [i];
    assert Emit(x.env, r, back, cc) == OneChar(back, i);
    OneCharCorrect(x, r, cc, i, 0);
    if back {
      assert OneChar(back, i) == [Prev] + ([i] + [Prev]);
      AtCons(code, pc, Prev, [i] + [Prev]);
      AtCons(code, pc + 1, i, [Prev]);
      AtLast(code, pc + 1 + Size(i), Prev);
    } else {
      AtLast(code, pc, i);
    }
    var end := pc + Len(Emit(x.env, r, back, cc));
    forall s: Res, stack: seq<int>, base: seq<Saved> | InText(x, s) ensures Plays(go, x, back, Once(r, cc), s, pc, stack, end, stack, base) {
      if back {
        BackCharPlays(go, x, code, r, cc, s, pc, i, stack, base);
      } else {
        ForwardCharPlays(go, x, code, r, cc, s, pc, i, stack, base);
      }
    }
  }

  lemma ForwardCharPlays(go: Rel, x: Ctx, code: Code, r: Node, cc: nat, s: Res, pc: int, i: Instr, stack: seq<int>, base: seq<Saved>)
    requires Runs(go, x, code) && (r.Chr? || r.AnyChar? || r.Class?)
    requires WellFormed(r) && WellFormedCtx(x) && Emit(x.env, r, false, cc) == [i] && IsCharOp(i)
    requires code.fetch(pc) == Got(i)
    ensures Plays(go, x, false, Once(r, cc), s, pc, stack, pc + Size(i), stack, base)
  {
    hide Results, CharOp, Accepts;
    CharResults(x, false, r, cc, s);
    if s.pos < |x.text| { OneCharCorrect(x, r, cc, i, x.text[s.pos]); }
    OneStep(go, x, code, false, Once(r, cc), s, pc, i, stack, base);
  }

  lemma BackCharPlays(go: Rel, x: Ctx, code: Code, r: Node, cc: nat, s: Res, pc: int, i: Instr, stack: seq<int>, base: seq<Saved>)
    requires Runs(go, x, code) && (r.Chr? || r.AnyChar? || r.Class?) && InText(x, s)
    requires WellFormed(r) && WellFormedCtx(x) && Emit(x.env, r, false, cc) == [i] && IsCharOp(i)
    requires code.fetch(pc) == Got(Prev) && code.fetch(pc + 1) == Got(i) && code.fetch(pc + 1 + Size(i)) == Got(Prev)
    ensures Plays(go, x, true, Once(r, cc), s, pc, stack, pc + 2 + Size(i), stack, base)
  {
    hide Results, CharOp, Accepts;
    CharResults(x, true, r, cc, s);
    var s0 := AtRes(pc, s, stack, base);
    Executes(go, x, code, s0, Prev);
    if s.pos > 0 {
      var p := s.pos - 1;
      var q, end := Res(p, s.caps), pc + 2 + Size(i);
      var s1 := AtRes(pc + 1, q, stack, base);
      OneCharCorrect(x, r, cc, i, x.text[p]);
      Executes(go, x, code, s1, i);
      if CharOp(x, i, x.text[p]) {
        var s2 := AtRes(pc + 1 + Size(i), s, stack, base);
        Executes(go, x, code, s2, Prev);
        DeliversOne(go, q, end, stack, base);
        DeliversAfter(go, s2, AtRes(end, q, stack, base), [q], end, stack, base);
        DeliversAfter(go, s1, s2, [q], end, stack, base);
        DeliversAfter(go, s0, s1, [q], end, stack, base);
      } else {
        Chain(go, s0, s1, Fail(base));
      }
    }
  }

  lemma {:induction false} CopyForwardIs(x: Ctx, from: int, till: int, pos: nat)
    requires 0 <= from <= till
    ensures CopyForward(x, from, till, pos)
      == if from == till || (till <= |x.text| && pos + (till - from) <= |x.text| && SameFolded(x, from, pos, till - from))
         then Reached(pos + (till - from)) else Missed
    decreases till - from
  {
    if from < till && pos < |x.text| && from < |x.text| {
      CopyForwardIs(x, from + 1, till, pos + 1);
      if till <= |x.text| && pos + (till - from) <= |x.text| {
        var f, n := from + 1, till - from - 1;
        if Fold(x.env, x.text[from]) == Fold(x.env, x.text[pos]) && SameFolded(x, f, pos + 1, n) {
          forall k | from <= k < from + (till - from) ensures Fold(x.env, x.text[k]) == Fold(x.env, x.text[k - from + pos]) {
            if k > from { assert Fold(x.env, x.text[k]) == Fold(x.env, x.text[k - f + (pos + 1)]); }
          }
        }
        if SameFolded(x, from, pos, till - from) {
          assert Fold(x.env, x.text[from]) == Fold(x.env, x.text[from - from + pos]);
        }
      }
    }
  }

  lemma {:induction false} CopyBackwardIs(x: Ctx, from: int, till: int, pos: nat)
    requires 0 <= from <= till && pos <= |x.text|
    ensures CopyBackward(x, from, till, pos)
      == if from == till || (till <= |x.text| && till - from <= pos && SameFolded(x, from, pos - (till - from), till - from))
         then Reached(pos - (till - from)) else Missed
    decreases till - from
  {
    if from < till && 0 < pos && till <= |x.text| {
      CopyBackwardIs(x, from, till - 1, pos - 1);
      var n := till - from;
      if n <= pos {
        var b := pos - n;
        if SameFolded(x, from, b, n) {
          assert Fold(x.env, x.text[till - 1]) == Fold(x.env, x.text[till - 1 - from + b]);
          assert SameFolded(x, from, b, n - 1);
        }
        if Fold(x.env, x.text[till - 1]) == Fold(x.env, x.text[pos - 1]) && SameFolded(x, from, b, n - 1) {
          assert SameFolded(x, from, b, n);
        }
      }
    }
  }

  lemma BackRefPlays(go: Rel, x: Ctx, code: Code, back: bool, n: int, cc: nat, pc: int)
    requires Runs(go, x, code)
    requires At(code, pc, Emit(x.env, BackRef(n), back, cc))
    ensures Atom(go, x, back, Once(BackRef(n), cc), pc, pc + Len(Emit(x.env, BackRef(n), back, cc)))
  {
    var i := if back then BackwardBackReference(n) else BackReference(n);
    assert Emit(x.env, BackRef(n), back, cc) == [i];
    AtLast(code, pc, i);
    var end := pc + Size(i);
    forall s: Res, stack: seq<int>, base: seq<Saved> | InText(x, s)
      ensures Plays(go, x, back, Once(BackRef(n), cc), s, pc, stack, end, stack, base)
    {
      if 0 <= n && 2 * n + 1 < |s.caps| {
        var from, to := s.caps[2 * n], s.caps[2 * n + 1];
        if 0 <= from < to {
          if back { CopyBackwardIs(x, from, to, s.pos); } else { CopyForwardIs(x, from, to, s.pos); }
        }
      }
      OneStep(go, x, code, back, Once(BackRef(n), cc), s, pc, i, stack, base);
    }
  }

  lemma {:induction false} Discards(go: Rel, x: Ctx, code: Code, caps: seq<int>, base: seq<Saved>, t: seq<Saved>)
    requires Runs(go, x, code) && Discardable(t)
    ensures go(Succeed(caps, base + t), Succeed(caps, base))
    decreases |t|
  {
    if t == [] {
      assert base + t == base;
      assert go(Succeed(caps, base), Succeed(caps, base));
    } else {
      var u := t[..|t| - 1];
      assert Pop(base + t) == base + u;
      assert Step(x, code, Succeed(caps, base + t)) == Succeed(caps, base + u);
      Discards(go, x, code, caps, base, u);
      Chain(go, Succeed(caps, base + t), Succeed(caps, base + u), Succeed(caps, base));
    }
  }

  /** A lookaround that succeeded, from the match opcode on. */
  lemma LookSucceeds(go: Rel, x: Ctx, code: Code, z: int, q: Res, stack: seq<int>, base: seq<Saved>, u: Saved, t: seq<Saved>)
    requires Runs(go, x, code) && code.fetch(z) == Got(Match) && Discardable(t)
    requires u.kind.LookState? || u.kind.NegLookState?
    ensures go(AtRes(z, q, stack, base + [u] + t), if u.kind.LookState? then Resume(u, q.caps, base) else Fail(base))
  {
    var s := AtRes(z, q, stack, base + [u] + t);
    var m, m' := Succeed(q.caps, base + [u] + t), Succeed(q.caps, base + [u]);
    Executes(go, x, code, s, Match);
    Discards(go, x, code, q.caps, base + [u], t);
    Chain(go, s, m, m');
    assert Pop(base + [u]) == base;
    var e := Step(x, code, m');
    Chain(go, s, m', e);
  }

  lemma LookFails(go: Rel, x: Ctx, code: Code, base: seq<Saved>, u: Saved)
    requires Runs(go, x, code)
    requires u.kind.LookState? || u.kind.NegLookState?
    ensures go(Fail(base + [u]), if u.kind.LookState? then Fail(base) else Resume(u, u.caps, base))
  {
    assert Pop(base + [u]) == base;
    var e := Step(x, code, Fail(base + [u]));
  }

  lemma LookPlays(go: Rel, x: Ctx, code: Code, back: bool, negative: bool, behind: bool, b: Node, cc: nat, body: seq<Instr>, pc: int)
    requires Runs(go, x, code) && Portable(go, x, code, behind, Once(b, cc), body)
    requires At(code, pc, [if negative then NegativeLookahead(Len(body) + 1) else Lookahead(Len(body) + 1)] + body + [Match])
    ensures Atom(go, x, back, Once(Look(negative, behind, b), cc), pc, pc + 6 + Len(body))
  {
    hide At, Len, Plays;
    var i := if negative then NegativeLookahead(Len(body) + 1) else Lookahead(Len(body) + 1);
    var z, end := pc + 5 + Len(body), pc + 6 + Len(body);
    assert [i] + body + [Match] == [i] + (body + [Match]);
    AtCons(code, pc, i, body + [Match]);
    AtConcat(code, pc + 5, body, [Match]);
    AtLast(code, z, Match);
    assert Atom(go, x, behind, Once(b, cc), pc + 5, z);
    forall s: Res, stack: seq<int>, base: seq<Saved> | InText(x, s)
      ensures Plays(go, x, back, Once(Look(negative, behind, b), cc), s, pc, stack, end, stack, base)
    {
      LookAt(go, x, code, back, negative, behind, b, cc, s, pc, z, end, stack, base);
    }
  }

  lemma LookAt(go: Rel, x: Ctx, code: Code, back: bool, negative: bool, behind: bool, b: Node, cc: nat,
               s: Res, pc: int, z: int, end: int, stack: seq<int>, base: seq<Saved>)
    requires Runs(go, x, code) && InText(x, s)
    requires code.fetch(pc) == Got(if negative then NegativeLookahead(end - pc - 5) else Lookahead(end - pc - 5))
    requires code.fetch(z) == Got(Match)
    requires Atom(go, x, behind, Once(b, cc), pc + 5, z)
    ensures Plays(go, x, back, Once(Look(negative, behind, b), cc), s, pc, stack, end, stack, base)
  {
    hide Results;
    LookResults(x, back, negative, behind, b, cc, s);
    var i := if negative then NegativeLookahead(end - pc - 5) else Lookahead(end - pc - 5);
    var u := Saved(if negative then NegLookState else LookState, end, s.pos, s.caps, stack, 0);
    var s0, s1 := AtRes(pc, s, stack, base), AtRes(pc + 5, s, stack, base + [u]);
    var inner := Results(x, behind, Once(b, cc), s);
    Executes(go, x, code, s0, i);
    assert go(s0, s1);
    assert Plays(go, x, behind, Once(b, cc), s, pc + 5, stack, z, stack, base + [u]);
    LookDelivers(go, x, code, negative, s, inner, s0, s1, u, z, end, stack, base);
  }

  lemma LookDelivers(go: Rel, x: Ctx, code: Code, negative: bool, s: Res, inner: seq<Res>, s0: State, s1: State, u: Saved,
                     z: int, end: int, stack: seq<int>, base: seq<Saved>)
    requires Runs(go, x, code) && code.fetch(z) == Got(Match)
    requires u == Saved(if negative then NegLookState else LookState, end, s.pos, s.caps, stack, 0)
    requires go(s0, s1) && Delivers(go, s1, inner, z, stack, base + [u])
    ensures Delivers(go, s0, if negative then If(inner == [], s) else if inner == [] then [] else [s.(caps := inner[0].caps)],
                     end, stack, base)
  {
    hide Step;
    if inner == [] {
      LookFails(go, x, code, base, u);
      Chain(go, s0, s1, Fail(base + [u]));
      Chain(go, s0, Fail(base + [u]), if negative then Resume(u, u.caps, base) else Fail(base));
      if negative {
        DeliversOne(go, s, end, stack, base);
        DeliversAfter(go, s0, AtRes(end, s, stack, base), [s], end, stack, base);
      }
    } else {
      var t := OfferOf(go, s1, inner, z, stack, base + [u]);
      var m := AtRes(z, inner[0], stack, base + [u] + t);
      LookSucceeds(go, x, code, z, inner[0], stack, base, u, t);
      Chain(go, s0, s1, m);
      Chain(go, s0, m, if negative then Fail(base) else Resume(u, inner[0].caps, base));
      if !negative {
        var q := s.(caps := inner[0].caps);
        DeliversOne(go, q, end, stack, base);
        DeliversAfter(go, s0, AtRes(end, q, stack, base), [q], end, stack, base);
      }
    }
  }

  lemma GroupPlays(go: Rel, x: Ctx, code: Code, back: bool, b: Node, cc: nat, body: seq<Instr>, pc: int)
    requires Runs(go, x, code) && Portable(go, x, code, back, Once(b, cc + 1), body)
    requires At(code, pc, [if back then SaveEnd(cc) else SaveStart(cc)] + body + [if back then SaveStart(cc) else SaveEnd(cc)])
    ensures Atom(go, x, back, Once(Group(b), cc), pc, pc + 4 + Len(body))
  {
    hide At, Len, Plays;
    var i, j := if back then SaveEnd(cc) else SaveStart(cc), if back then SaveStart(cc) else SaveEnd(cc);
    var z, end := pc + 2 + Len(body), pc + 4 + Len(body);
    assert [i] + body + [j] == [i] + (body + [j]);
    AtCons(code, pc, i, body + [j]);
    AtConcat(code, pc + 2, body, [j]);
    AtLast(code, z, j);
    assert Atom(go, x, back, Once(b, cc + 1), pc + 2, z);
    forall s: Res, stack: seq<int>, base: seq<Saved> | InText(x, s)
      ensures Plays(go, x, back, Once(Group(b), cc), s, pc, stack, end, stack, base)
    {
      GroupAt(go, x, code, back, b, cc, s, pc, z, stack, base);
    }
  }

  lemma GroupAt(go: Rel, x: Ctx, code: Code, back: bool, b: Node, cc: nat, s: Res, pc: int, z: int, stack: seq<int>, base: seq<Saved>)
    requires Runs(go, x, code) && InText(x, s)
    requires code.fetch(pc) == Got(if back then SaveEnd(cc) else SaveStart(cc))
    requires code.fetch(z) == Got(if back then SaveStart(cc) else SaveEnd(cc))
    requires Atom(go, x, back, Once(b, cc + 1), pc + 2, z)
    ensures Plays(go, x, back, Once(Group(b), cc), s, pc, stack, z + 2, stack, base)
  {
    hide Results, Delivers;
    GroupResults(x, back, b, cc, s);
    var first := if back then 2 * cc + 1 else 2 * cc;
    var slot := 4 * cc + 1 - first;
    var s' := s.(caps := SetCap(s.caps, first, s.pos));
    var inner := Results(x, back, Once(b, cc + 1), s');
    var s0, s1 := AtRes(pc, s, stack, base), AtRes(pc + 2, s', stack, base);
    Executes(go, x, code, s0, if back then SaveEnd(cc) else SaveStart(cc));
    assert go(s0, s1);
    assert Plays(go, x, back, Once(b, cc + 1), s', pc + 2, stack, z, stack, base);
    var outer := Stamp(inner, slot);
    forall k, t | 0 <= k < |inner| && Discardable(t)
      ensures go(Run(z, inner[k].pos, inner[k].caps, stack, base + t), Run(z + 2, outer[k].pos, outer[k].caps, stack, base + t))
    {
      StampStep(go, x, code, back, cc, z, inner[k], stack, base + t);
    }
    DeliversAfter(go, s0, s1, inner, z, stack, base);
    DeliversOn(go, s0, inner, z, stack, outer, z + 2, stack, base);
  }

  lemma StampStep(go: Rel, x: Ctx, code: Code, back: bool, cc: nat, z: int, q: Res, stack: seq<int>, base: seq<Saved>)
    requires Runs(go, x, code) && code.fetch(z) == Got(if back then SaveStart(cc) else SaveEnd(cc))
    ensures go(AtRes(z, q, stack, base), Run(z + 2, q.pos, SetCap(q.caps, if back then 2 * cc else 2 * cc + 1, q.pos), stack, base))
  {
    Executes(go, x, code, AtRes(z, q, stack, base), if back then SaveStart(cc) else SaveEnd(cc));
  }

  lemma CatPlays(go: Rel, x: Ctx, code: Code, back: bool, a: Node, b: Node, cc: nat, ca: seq<Instr>, cb: seq<Instr>, pc: int)
    requires Runs(go, x, code)
    requires Portable(go, x, code, back, Once(a, cc), ca) && Portable(go, x, code, back, Once(b, cc + NCaps(a)), cb)
    requires At(code, pc, if back then cb + ca else ca + cb)
    ensures Atom(go, x, back, Once(Cat(a, b), cc), pc, pc + Len(ca) + Len(cb))
  {
    hide At, Len, Plays, Unwinds, Step, Results, All;
    RunsReady(go, x, code);
    var p, q := if back then Once(b, cc + NCaps(a)) else Once(a, cc), if back then Once(a, cc) else Once(b, cc + NCaps(a));
    var cp, cq := if back then cb else ca, if back then ca else cb;
    AtConcat(code, pc, cp, cq);
    var z, end := pc + Len(cp), pc + Len(ca) + Len(cb);
    assert Atom(go, x, back, p, pc, z) && Atom(go, x, back, q, z, end);
    forall s: Res, stack: seq<int>, base: seq<Saved> | InText(x, s)
      ensures Plays(go, x, back, Once(Cat(a, b), cc), s, pc, stack, end, stack, base)
    {
      ThenPlays(go, x, back, p, q, pc, z, end, s, stack, base);
      CatResults(x, back, a, b, cc, s);
      Shown(go, x, back, Once(Cat(a, b), cc), s, pc, stack, end, base);
    }
  }

  lemma AltCodePlays(go: Rel, x: Ctx, code: Code, back: bool, a: Node, b: Node, cc: nat, ca: seq<Instr>, cb: seq<Instr>, pc: int)
    requires Runs(go, x, code)
    requires Portable(go, x, code, back, Once(a, cc), ca) && Portable(go, x, code, back, Once(b, cc + NCaps(a)), cb)
    requires At(code, pc, [SplitNextFirst(Len(ca) + 5)] + ca + [Goto(Len(cb))] + cb)
    ensures Atom(go, x, back, Once(Alt(a, b), cc), pc, pc + 10 + Len(ca) + Len(cb))
  {
    hide At, Len, Plays, Unwinds, Step, Heads, Jumps, Results;
    RunsReady(go, x, code);
    var p, q := Once(a, cc), Once(b, cc + NCaps(a));
    var i, j := SplitNextFirst(Len(ca) + 5), Goto(Len(cb));
    var z := pc + 5 + Len(ca);
    var second, end := z + 5, z + 5 + Len(cb);
    assert [i] + ca + [j] + cb == [i] + (ca + ([j] + cb));
    AtCons(code, pc, i, ca + ([j] + cb));
    AtConcat(code, pc + 5, ca, [j] + cb);
    AtCons(code, z, j, cb);
    assert i == Split(true, Len(ca) + 5);
    SplitHeads(go, x, code, true, pc, Len(ca) + 5);
    GotoJumps(go, x, code, z, Len(cb));
    assert Atom(go, x, back, p, pc + 5, z) && Atom(go, x, back, q, second, end);
    forall s: Res, stack: seq<int>, base: seq<Saved> | InText(x, s)
      ensures Plays(go, x, back, Once(Alt(a, b), cc), s, pc, stack, end, stack, base)
    {
      AltPlays(go, x, back, p, q, pc, pc + 5, z, second, end, s, stack, base);
      AltResults(x, back, a, b, cc, s);
      Shown(go, x, back, Once(Alt(a, b), cc), s, pc, stack, end, base);
    }
  }

  lemma Shown(go: Rel, x: Ctx, back: bool, p: Plan, s: Res, pc: int, stack: seq<int>, end: int, base: seq<Saved>)
    requires Delivers(go, AtRes(pc, s, stack, base), Results(x, back, p, s), end, stack, base)
    ensures Plays(go, x, back, p, s, pc, stack, end, stack, base)
  {
  }

  lemma GotoJumps(go: Rel, x: Ctx, code: Code, z: int, d: int)
    requires Runs(go, x, code) && code.fetch(z) == Got(Goto(d))
    ensures Jumps(go, z, z + 5 + d)
  {
    var end := z + 5 + d;
    forall s: Res, stack: seq<int>, base: seq<Saved> ensures JumpsAt(go, z, end, s, stack, base) {
      Executes(go, x, code, AtRes(z, s, stack, base), Goto(d));
    }
  }

  /** Code for the backward direction is never straight-line reading code. */
  lemma {:induction false} BackNotSimple(e: Env, r: Node, cc: nat)
    requires WellFormed(r)
    ensures SimpleCount(Emit(e, r, true, cc)) <= 0
    decreases r
  {
    hide EmitQuant, EmitClass, SimpleCount;
    var c := Emit(e, r, true, cc);
    match r
    case Chr(_) => NotSimple(c, 0);
    case AnyChar => NotSimple(c, 0);
    case Class(_) => NotSimple(c, 0);
    case BackRef(_) => NotSimple(c, 0);
    case Cat(a, b) =>
      BackNotSimple(e, a, cc);
      BackNotSimple(e, b, cc + NCaps(a));
      SimpleCountConcat(Emit(e, b, true, cc + NCaps(a)), Emit(e, a, true, cc));
    case Alt(_, _) => NotSimple(c, 0);
    case Group(_) => NotSimple(c, 0);
    case Look(_, _, _) => NotSimple(c, 0);
    case Quant(b, min, max, greedy) =>
      BackNotSimple(e, b, cc);
      QuantShape(Emit(e, b, true, cc), cc, cc + NCaps(b) - 1, min, max, greedy);
      CountNil();
    case Empty => CountNil();
    case _ => CountTest(c);
  }

  lemma CountNil() ensures SimpleCount([]) == 0 {}

  lemma CountTest(c: seq<Instr>)
    requires |c| == 1 && IsTestOp(c[0])
    ensures SimpleCount(c) == 0
  {
    assert c[1..] == [];
  }

  /** The code of a quantifier without the opcode that resets captures. */
  function RepCode(c: seq<Instr>, min: int, max: int, greedy: bool): seq<Instr> {
    var check := NeedsCheck(c, greedy);
    if UsesGreedyOp(c, max, greedy) then [SimpleGreedyQuant(Len(c) + 1, min, max, SimpleCount(c))] + (c + [Match])
    else if min == 0 then
      if max == 0 then []
      else if max == 1 then [Split(greedy, Len(c))] + c
      else if max == INF then StarCode(c, greedy, check)
      else UpToCode(c, greedy, max)
    else if min == 1 && max == INF && !check then c + [Split(!greedy, -(Len(c) + 5))]
    else if max == INF then ExactCode(c, min) + StarCode(c, greedy, check)
    else if max > min then ExactCode(c, min) + UpToCode(c, greedy, max - min)
    else ExactCode(c, min)
  }

  predicate Resets(c: seq<Instr>, first: int, last: int, min: int, max: int, greedy: bool) {
    !UsesGreedyOp(c, max, greedy) && min == 0 && first <= last
  }

  lemma EmitQuantIs(c: seq<Instr>, first: int, last: int, min: int, max: int, greedy: bool)
    ensures EmitQuant(c, first, last, min, max, greedy)
      == (if Resets(c, first, last, min, max, greedy) then [SaveReset(first, last)] else []) + RepCode(c, min, max, greedy)
  {
    hide StarCode, UpToCode, NeedsCheck, SimpleCount, Len;
    if UsesGreedyOp(c, max, greedy) {
      var i := SimpleGreedyQuant(Len(c) + 1, min, max, SimpleCount(c));
      assert [i] + c + [Match] == [] + ([i] + (c + [Match]));
    } else if min != 0 {
      assert ExactCode(c, min) + [] == ExactCode(c, min);
      assert [] + RepCode(c, min, max, greedy) == RepCode(c, min, max, greedy);
    }
  }

  ghost function RepOf(b: Node, cc: nat, min: int, max: int, greedy: bool): Plan
    requires 0 <= min <= max
  {
    Rep(b, cc, min, if max == INF then 0 else max - min, max == INF, greedy)
  }

  lemma NonePlays(go: Rel, x: Ctx, back: bool, b: Node, cc: nat, greedy: bool, pc: int)
    requires Transitive(go)
    ensures Atom(go, x, back, Rep(b, cc, 0, 0, false, greedy), pc, pc)
  {
    hide Delivers;
    forall s: Res, stack: seq<int>, base: seq<Saved>
      ensures Plays(go, x, back, Rep(b, cc, 0, 0, false, greedy), s, pc, stack, pc, stack, base)
    {
      assert Results(x, back, Rep(b, cc, 0, 0, false, greedy), s) == [s];
      DeliversOne(go, s, pc, stack, base);
    }
  }

  /** Every quantifier shape plays the same repetition. */
  lemma RepCodePlays(go: Rel, x: Ctx, code: Code, back: bool, b: Node, cc: nat, min: int, max: int, greedy: bool, c: seq<Instr>, pc: int)
    requires Runs(go, x, code) && WellFormed(b) && WellFormedCtx(x) && 0 <= min <= max <= INF
    requires c == Emit(x.env, b, back, cc) && Portable(go, x, code, back, Once(b, cc), c)
    requires max == INF ==> NeedsCheck(c, greedy) || Advances(x, back, b, cc)
    requires At(code, pc, RepCode(c, min, max, greedy))
    ensures Atom(go, x, back, RepOf(b, cc, min, max, greedy), pc, pc + Len(RepCode(c, min, max, greedy)))
  {
    hide At, Len, Atom, Portable, Runs, Advances, StarCode, UpToCode, ExactCode, SimpleCount, CheckAdvance, Emit, WellFormed, WellFormedCtx;
    var check := NeedsCheck(c, greedy);
    if UsesGreedyOp(c, max, greedy) {
      GreedyCodePlays(go, x, code, back, b, cc, min, max, c, pc);
    } else if min == 0 {
      if max == 0 {
        LenNil();
        RunsTransitive(go, x, code);
        NonePlays(go, x, back, b, cc, greedy, pc);
      } else if max == 1 {
        LenCons(Split(greedy, Len(c)), c);
        OptionalCodePlays(go, x, code, back, b, cc, c, greedy, pc);
      } else if max == INF {
        StarCodePlays(go, x, code, back, b, cc, c, greedy, check, pc);
      } else {
        UpToCodePlays(go, x, code, back, b, cc, c, greedy, max, pc);
      }
    } else if min == 1 && max == INF && !check {
      LenSnoc(c, Split(!greedy, -(Len(c) + 5)));
      PlusCodePlays(go, x, code, back, b, cc, c, greedy, pc);
    } else {
      MandatoryPlays(go, x, code, back, b, cc, min, max, greedy, c, pc);
    }
  }

  lemma LenNil() ensures Len([]) == 0 {}

  lemma LenCons(i: Instr, c: seq<Instr>)
    ensures Len([i] + c) == Size(i) + Len(c)
  {
    assert ([i] + c)[1..] == c;
  }

  lemma LenSnoc(c: seq<Instr>, i: Instr)
    ensures Len(c + [i]) == Len(c) + Size(i)
  {
    LenConcat(c, [i]);
    LenCons(i, []);
    assert [i] + [] == [i];
  }

  lemma RunsTransitive(go: Rel, x: Ctx, code: Code)
    requires Runs(go, x, code)
    ensures Transitive(go)
  {
  }

  lemma GreedyCodePlays(go: Rel, x: Ctx, code: Code, back: bool, b: Node, cc: nat, min: int, max: int, c: seq<Instr>, pc: int)
    requires Runs(go, x, code) && WellFormed(b) && WellFormedCtx(x) && 0 <= min <= max <= INF
    requires c == Emit(x.env, b, back, cc) && SimpleCount(c) > 0 && max > 0
    requires At(code, pc, [SimpleGreedyQuant(Len(c) + 1, min, max, SimpleCount(c))] + (c + [Match]))
    ensures Atom(go, x, back, RepOf(b, cc, min, max, true), pc,
                 pc + Len([SimpleGreedyQuant(Len(c) + 1, min, max, SimpleCount(c))] + (c + [Match])))
  {
    hide At, Len, Plays, Simple, SimpleCount, Runs, Emit, WellFormed, WellFormedCtx;
    if back { BackNotSimple(x.env, b, cc); }
    SimpleNode(x, b, cc);
    var i := SimpleGreedyQuant(Len(c) + 1, min, max, SimpleCount(c));
    LenCons(i, c + [Match]);
    LenSnoc(c, Match);
    var end := pc + 18 + Len(c);
    forall s: Res, stack: seq<int>, base: seq<Saved> | InText(x, s)
      ensures Plays(go, x, back, RepOf(b, cc, min, max, true), s, pc, stack, end, stack, base)
    {
      GreedyOpPlays(go, x, code, pc, b, cc, c, min, max, s, stack, base);
    }
  }

  lemma MandatoryPlays(go: Rel, x: Ctx, code: Code, back: bool, b: Node, cc: nat, min: int, max: int, greedy: bool, c: seq<Instr>, pc: int)
    requires Runs(go, x, code) && 1 <= min <= max <= INF
    requires Portable(go, x, code, back, Once(b, cc), c)
    requires max == INF ==> NeedsCheck(c, greedy) || Advances(x, back, b, cc)
    requires !UsesGreedyOp(c, max, greedy) && !(min == 1 && max == INF && !NeedsCheck(c, greedy))
    requires At(code, pc, RepCode(c, min, max, greedy))
    ensures Atom(go, x, back, RepOf(b, cc, min, max, greedy), pc, pc + Len(RepCode(c, min, max, greedy)))
  {
    hide At, Len, Atom, Portable, Runs, Advances, StarCode, UpToCode, ExactCode, SimpleCount, CheckAdvance;
    var first := ExactCode(c, min);
    var rest := if max == INF then StarCode(c, greedy, NeedsCheck(c, greedy)) else if max > min then UpToCode(c, greedy, max - min) else [];
    var opt := if max == INF then 0 else max - min;
    assert first + [] == first;
    assert RepCode(c, min, max, greedy) == first + rest;
    AtConcat(code, pc, first, rest);
    LenNil();
    var z, end := pc + Len(first), pc + Len(first) + Len(rest);
    if max == INF {
      StarCodePlays(go, x, code, back, b, cc, c, greedy, NeedsCheck(c, greedy), z);
    } else if max > min {
      UpToCodePlays(go, x, code, back, b, cc, c, greedy, max - min, z);
    } else {
      RunsTransitive(go, x, code);
      NonePlays(go, x, back, b, cc, greedy, z);
    }
    ExactCodePlays(go, x, code, back, b, cc, c, min, opt, max == INF, greedy, pc, end);
  }

  lemma QuantPlays(go: Rel, x: Ctx, code: Code, back: bool, b: Node, cc: nat, min: int, max: int, greedy: bool, c: seq<Instr>, pc: int)
    requires Runs(go, x, code) && WellFormed(b) && WellFormedCtx(x) && 0 <= min <= max <= INF
    requires c == Emit(x.env, b, back, cc) && Portable(go, x, code, back, Once(b, cc), c)
    requires max == INF ==> NeedsCheck(c, greedy) || Advances(x, back, b, cc)
    requires At(code, pc, EmitQuant(c, cc, cc + NCaps(b) - 1, min, max, greedy))
    ensures Atom(go, x, back, Once(Quant(b, min, max, greedy), cc), pc, pc + Len(EmitQuant(c, cc, cc + NCaps(b) - 1, min, max, greedy)))
  {
    hide At, Len, Plays, Portable, Runs, Advances, RepCode, NeedsCheck, Emit, EmitQuant, Results, WellFormed, WellFormedCtx, UsesGreedyOp;
    var first, last := cc, cc + NCaps(b) - 1;
    var core := RepCode(c, min, max, greedy);
    EmitQuantIs(c, first, last, min, max, greedy);
    var p := RepOf(b, cc, min, max, greedy);
    var end := pc + Len(EmitQuant(c, first, last, min, max, greedy));
    RunsTransitive(go, x, code);
    if Resets(c, first, last, min, max, greedy) {
      AtCons(code, pc, SaveReset(first, last), core);
      RepCodePlays(go, x, code, back, b, cc, min, max, greedy, c, pc + 3);
      forall s: Res, stack: seq<int>, base: seq<Saved> | InText(x, s)
        ensures Plays(go, x, back, Once(Quant(b, min, max, greedy), cc), s, pc, stack, end, stack, base)
      {
        ResetPlays(go, x, code, back, b, cc, min, max, greedy, s, pc, end, stack, base);
      }
    } else {
      assert [] + core == core;
      RepCodePlays(go, x, code, back, b, cc, min, max, greedy, c, pc);
      forall s: Res, stack: seq<int>, base: seq<Saved> | InText(x, s)
        ensures Plays(go, x, back, Once(Quant(b, min, max, greedy), cc), s, pc, stack, end, stack, base)
      {
        QuantResults(x, back, b, min, max, greedy, cc, s);
        assert Plays(go, x, back, p, s, pc, stack, end, stack, base);
        if UsesGreedyOp(c, max, greedy) { NoCapsInSimple(x.env, b, back, cc, max, greedy); }
        SamePlays(go, x, back, p, Once(Quant(b, min, max, greedy), cc), s, pc, stack, end, base);
      }
    }
  }

  lemma SamePlays(go: Rel, x: Ctx, back: bool, p: Plan, q: Plan, s: Res, pc: int, stack: seq<int>, end: int, base: seq<Saved>)
    requires Results(x, back, p, s) == Results(x, back, q, s)
    requires Plays(go, x, back, p, s, pc, stack, end, stack, base)
    ensures Plays(go, x, back, q, s, pc, stack, end, stack, base)
  {
    hide Results;
  }

  lemma ResetPlays(go: Rel, x: Ctx, code: Code, back: bool, b: Node, cc: nat, min: int, max: int, greedy: bool,
                   s: Res, pc: int, end: int, stack: seq<int>, base: seq<Saved>)
    requires Runs(go, x, code) && 0 == min <= max && NCaps(b) > 0 && InText(x, s)
    requires code.fetch(pc) == Got(SaveReset(cc, cc + NCaps(b) - 1))
    requires Atom(go, x, back, RepOf(b, cc, min, max, greedy), pc + 3, end)
    ensures Plays(go, x, back, Once(Quant(b, min, max, greedy), cc), s, pc, stack, end, stack, base)
  {
    hide Results, ResetCaps;
    var s0 := s.(caps := ResetCaps(s.caps, cc, cc + NCaps(b) - 1));
    QuantResults(x, back, b, min, max, greedy, cc, s);
    Executes(go, x, code, AtRes(pc, s, stack, base), SaveReset(cc, cc + NCaps(b) - 1));
    assert Plays(go, x, back, RepOf(b, cc, min, max, greedy), s0, pc + 3, stack, end, stack, base);
    DeliversAfter(go, AtRes(pc, s, stack, base), AtRes(pc + 3, s0, stack, base),
                  Results(x, back, RepOf(b, cc, min, max, greedy), s0), end, stack, base);
  }

  /** Straight-line code has no captures. */
  lemma {:induction false} SimpleHasNoCaps(e: Env, r: Node, back: bool, cc: nat)
    requires WellFormed(r)
    ensures SimpleCount(Emit(e, r, back, cc)) >= 0 ==> NCaps(r) == 0
    decreases r
  {
    hide EmitQuant, EmitClass, SimpleCount;
    var c := Emit(e, r, back, cc);
    match r
    case Cat(a, b) =>
      SimpleHasNoCaps(e, a, back, cc);
      SimpleHasNoCaps(e, b, back, cc + NCaps(a));
      var ca, cb := Emit(e, a, back, cc), Emit(e, b, back, cc + NCaps(a));
      if back { SimpleCountConcat(cb, ca); } else { SimpleCountConcat(ca, cb); }
    case Alt(_, _) => NotSimple(c, 0);
    case Group(_) => NotSimple(c, 0);
    case Look(_, _, _) => NotSimple(c, 0);
    case Quant(b, min, max, greedy) =>
      SimpleHasNoCaps(e, b, back, cc);
      QuantShape(Emit(e, b, back, cc), cc, cc + NCaps(b) - 1, min, max, greedy);
    case _ =>
  }

  lemma NoCapsInSimple(e: Env, b: Node, back: bool, cc: nat, max: int, greedy: bool)
    requires WellFormed(b) && UsesGreedyOp(Emit(e, b, back, cc), max, greedy)
    ensures NCaps(b) == 0
  {
    SimpleHasNoCaps(e, b, back, cc);
  }

  /** The code of every supported pattern plays the pattern, wherever it lies:
      it offers exactly the matches of the pattern, in order of priority, with
      their captures, leaves the counter stack as it found it, and after the
      last match fails back to the states that were saved before. */
  lemma {:induction false} NodePlays(go: Rel, x: Ctx, code: Code, back: bool, r: Node, cc: nat, pc: int)
    requires Runs(go, x, code) && WellFormed(r) && WellFormedCtx(x) && Supported(x, back, r, cc)
    requires At(code, pc, Emit(x.env, r, back, cc))
    ensures Atom(go, x, back, Once(r, cc), pc, pc + Len(Emit(x.env, r, back, cc)))
    decreases r, 1
  {
    hide At, Len, Atom, Runs, Supported, Emit, WellFormed, WellFormedCtx;
    match r
    case Empty => EmptyPlays(go, x, code, back, cc, pc);
    case Chr(_) => CharPlays(go, x, code, back, r, cc, pc);
    case AnyChar => CharPlays(go, x, code, back, r, cc, pc);
    case Class(_) => CharPlays(go, x, code, back, r, cc, pc);
    case Bol => TestPlays(go, x, code, back, r, cc, pc);
    case Eol => TestPlays(go, x, code, back, r, cc, pc);
    case WordB(_) => TestPlays(go, x, code, back, r, cc, pc);
    case BackRef(n) => BackRefPlays(go, x, code, back, n, cc, pc);
    case Cat(_, _) => PairPlays(go, x, code, back, r, cc, pc);
    case Alt(_, _) => PairPlays(go, x, code, back, r, cc, pc);
    case Group(_) => GroupBodyPlays(go, x, code, back, r, cc, pc);
    case Look(_, _, _) => LookBodyPlays(go, x, code, back, r, cc, pc);
    case Quant(_, _, _, _) => QuantBodyPlays(go, x, code, back, r, cc, pc);
  }

  lemma {:induction false} PairPlays(go: Rel, x: Ctx, code: Code, back: bool, r: Node, cc: nat, pc: int)
    requires Runs(go, x, code) && WellFormed(r) && WellFormedCtx(x) && Supported(x, back, r, cc) && (r.Cat? || r.Alt?)
    requires At(code, pc, Emit(x.env, r, back, cc))
    ensures Atom(go, x, back, Once(r, cc), pc, pc + Len(Emit(x.env, r, back, cc)))
    decreases r, 0
  {
    hide At, Len, Atom, Runs, Portable, WellFormedCtx;
    var a, b := r.left, r.right;
    NodePortable(go, x, code, back, a, cc);
    NodePortable(go, x, code, back, b, cc + NCaps(a));
    var ca, cb := Emit(x.env, a, back, cc), Emit(x.env, b, back, cc + NCaps(a));
    if r.Cat? {
      LenConcat(ca, cb);
      LenConcat(cb, ca);
      CatPlays(go, x, code, back, a, b, cc, ca, cb, pc);
    } else {
      AltLen(ca, cb);
      AltCodePlays(go, x, code, back, a, b, cc, ca, cb, pc);
    }
  }

  lemma {:induction false} GroupBodyPlays(go: Rel, x: Ctx, code: Code, back: bool, r: Node, cc: nat, pc: int)
    requires Runs(go, x, code) && WellFormed(r) && WellFormedCtx(x) && Supported(x, back, r, cc) && r.Group?
    requires At(code, pc, Emit(x.env, r, back, cc))
    ensures Atom(go, x, back, Once(r, cc), pc, pc + Len(Emit(x.env, r, back, cc)))
    decreases r, 0
  {
    hide At, Len, Atom, Runs, Portable, WellFormedCtx;
    NodePortable(go, x, code, back, r.body, cc + 1);
    var body := Emit(x.env, r.body, back, cc + 1);
    FrameLen(if back then SaveEnd(cc) else SaveStart(cc), body, if back then SaveStart(cc) else SaveEnd(cc));
    GroupPlays(go, x, code, back, r.body, cc, body, pc);
  }

  lemma {:induction false} LookBodyPlays(go: Rel, x: Ctx, code: Code, back: bool, r: Node, cc: nat, pc: int)
    requires Runs(go, x, code) && WellFormed(r) && WellFormedCtx(x) && Supported(x, back, r, cc) && r.Look?
    requires At(code, pc, Emit(x.env, r, back, cc))
    ensures Atom(go, x, back, Once(r, cc), pc, pc + Len(Emit(x.env, r, back, cc)))
    decreases r, 0
  {
    hide At, Len, Atom, Runs, Portable, WellFormedCtx;
    NodePortable(go, x, code, r.behind, r.body, cc);
    var body := Emit(x.env, r.body, r.behind, cc);
    FrameLen(if r.negative then NegativeLookahead(Len(body) + 1) else Lookahead(Len(body) + 1), body, Match);
    LookPlays(go, x, code, back, r.negative, r.behind, r.body, cc, body, pc);
  }

  lemma {:induction false} QuantBodyPlays(go: Rel, x: Ctx, code: Code, back: bool, r: Node, cc: nat, pc: int)
    requires Runs(go, x, code) && WellFormed(r) && WellFormedCtx(x) && Supported(x, back, r, cc) && r.Quant?
    requires At(code, pc, Emit(x.env, r, back, cc))
    ensures Atom(go, x, back, Once(r, cc), pc, pc + Len(Emit(x.env, r, back, cc)))
    decreases r, 0
  {
    hide At, Len, Atom, Runs, Portable, WellFormedCtx, EmitQuant, NeedsCheck, Advances;
    NodePortable(go, x, code, back, r.body, cc);
    QuantPlays(go, x, code, back, r.body, cc, r.min, r.max, r.greedy, Emit(x.env, r.body, back, cc), pc);
  }

  lemma NodePortable(go: Rel, x: Ctx, code: Code, back: bool, r: Node, cc: nat)
    requires Runs(go, x, code) && WellFormed(r) && WellFormedCtx(x) && Supported(x, back, r, cc)
    ensures Portable(go, x, code, back, Once(r, cc), Emit(x.env, r, back, cc))
    decreases r, 2
  {
    hide Runs, Atom, At, Len, Emit, WellFormedCtx, Supported, WellFormed;
    var c := Emit(x.env, r, back, cc);
    forall pc: int | At(code, pc, c) ensures Atom(go, x, back, Once(r, cc), pc, pc + Len(c)) {
      NodePlays(go, x, code, back, r, cc, pc);
    }
  }

  lemma EmptyPlays(go: Rel, x: Ctx, code: Code, back: bool, cc: nat, pc: int)
    requires Runs(go, x, code)
    ensures Atom(go, x, back, Once(Empty, cc), pc, pc + Len(Emit(x.env, Empty, back, cc)))
  {
    hide Delivers;
    forall s: Res, stack: seq<int>, base: seq<Saved> ensures Plays(go, x, back, Once(Empty, cc), s, pc, stack, pc, stack, base) {
      assert Results(x, back, Once(Empty, cc), s) == [s];
      DeliversOne(go, s, pc, stack, base);
    }
  }

  lemma FrameLen(i: Instr, body: seq<Instr>, j: Instr)
    ensures Len([i] + body + [j]) == Size(i) + Len(body) + Size(j)
  {
    hide Len;
    LenSnoc([i] + body, j);
    LenCons(i, body);
  }

  lemma AltLen(ca: seq<Instr>, cb: seq<Instr>)
    ensures Len([SplitNextFirst(Len(ca) + 5)] + ca + [Goto(Len(cb))] + cb) == 10 + Len(ca) + Len(cb)
  {
    hide Len;
    FrameLen(SplitNextFirst(Len(ca) + 5), ca, Goto(Len(cb)));
    LenConcat([SplitNextFirst(Len(ca) + 5)] + ca + [Goto(Len(cb))], cb);
  }
}
