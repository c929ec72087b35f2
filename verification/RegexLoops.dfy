/** Matching never moves against its direction. */
module RegexProgress {
  import opened RegexSyntax
  import opened RegexSemantics
  import opened RegexEquations

  predicate InText(x: Ctx, s: Res) { s.pos <= |x.text| }

  /** `r` is at or after `s` in the direction of matching. */
  predicate Later(x: Ctx, back: bool, s: Res, r: Res) {
    if back then r.pos <= s.pos else s.pos <= r.pos <= |x.text|
  }

  lemma {:induction false} ResultsLater(x: Ctx, back: bool, p: Plan, s: Res)
    requires InText(x, s)
    ensures forall r :: r in Results(x, back, p, s) ==> Later(x, back, s, r)
    decreases p.r, Rank(p), Count(p), Fuel(x, back, p, s.pos), 2
  {
    match p
    case Once(r, cc) => NodeLater(x, back, r, cc, s);
    case Rep(r, cc, min, opt, unbounded, greedy) =>
      if min > 0 || unbounded || opt > 0 {
        var next := if min > 0 then Rep(r, cc, min - 1, opt, unbounded, greedy)
                    else if unbounded then Again(r, cc, greedy, Room(x, back, s.pos))
                    else Rep(r, cc, 0, opt - 1, false, greedy);
        ResultsLater(x, back, Once(r, cc), s);
        AllLater(x, back, next, Results(x, back, Once(r, cc), s), s);
      }
    case Again(r, cc, greedy, room) =>
      if Room(x, back, s.pos) < room {
        ResultsLater(x, back, Rep(r, cc, 0, 0, true, greedy), s);
      }
  }

  lemma {:induction false} NodeLater(x: Ctx, back: bool, r: Node, cc: nat, s: Res)
    requires InText(x, s)
    ensures forall q :: q in Results(x, back, Once(r, cc), s) ==> Later(x, back, s, q)
    decreases r, 0, 0, 0, 1
  {
    hide Results, All, Stamp, Accepts;
    match r
    case Chr(_) => CharResults(x, back, r, cc, s);
    case AnyChar => CharResults(x, back, r, cc, s);
    case Class(_) => CharResults(x, back, r, cc, s);
    case BackRef(n) => BackRefResults(x, back, n, cc, s);
    case Cat(a, b) =>
      CatResults(x, back, a, b, cc, s);
      var f, g := if back then Once(b, cc + NCaps(a)) else Once(a, cc), if back then Once(a, cc) else Once(b, cc + NCaps(a));
      ResultsLater(x, back, f, s);
      AllLater(x, back, g, Results(x, back, f, s), s);
    case Alt(a, b) =>
      AltResults(x, back, a, b, cc, s);
      ResultsLater(x, back, Once(a, cc), s);
      ResultsLater(x, back, Once(b, cc + NCaps(a)), s);
    case Group(b) => GroupLater(x, back, b, cc, s);
    case Look(negative, behind, b) => LookResults(x, back, negative, behind, b, cc, s);
    case Quant(b, min, max, greedy) =>
      if 0 <= min <= max {
        QuantResults(x, back, b, min, max, greedy, cc, s);
        var s0 := if min == 0 && NCaps(b) > 0 then s.(caps := ResetCaps(s.caps, cc, cc + NCaps(b) - 1)) else s;
        ResultsLater(x, back, Rep(b, cc, min, if max == INF then 0 else max - min, max == INF, greedy), s0);
      } else {
        QuantBad(x, back, b, min, max, greedy, cc, s);
      }
    case _ => TestResults(x, back, r, cc, s);
  }

  lemma QuantBad(x: Ctx, back: bool, b: Node, min: int, max: int, greedy: bool, cc: nat, s: Res)
    requires min < 0 || max < min
    ensures Results(x, back, Once(Quant(b, min, max, greedy), cc), s) == []
  {
  }

  lemma {:induction false} GroupLater(x: Ctx, back: bool, b: Node, cc: nat, s: Res)
    requires InText(x, s)
    ensures forall q :: q in Results(x, back, Once(Group(b), cc), s) ==> Later(x, back, s, q)
    decreases Group(b), 0, 0, 0, 0
  {
    hide Results, Stamp, SetCap;
    var first := if back then 2 * cc + 1 else 2 * cc;
    var s' := s.(caps := SetCap(s.caps, first, s.pos));
    GroupResults(x, back, b, cc, s);
    var inner := Results(x, back, Once(b, cc + 1), s');
    ResultsLater(x, back, Once(b, cc + 1), s');
    var outer := Stamp(inner, 4 * cc + 1 - first);
    forall q | q in outer ensures Later(x, back, s, q) {
      var i :| 0 <= i < |outer| && outer[i] == q;
      assert inner[i] in inner;
    }
  }

  lemma {:induction false} AllLater(x: Ctx, back: bool, p: Plan, rs: seq<Res>, s: Res)
    requires InText(x, s)
    requires forall r :: r in rs ==> Later(x, back, s, r)
    ensures forall r :: r in All(x, back, p, rs) ==> Later(x, back, s, r)
    decreases p.r, Rank(p), Count(p), MaxFuel(x, p), |rs| + 2
  {
    if rs != [] {
      assert p.Rep? ==> Room(x, back, rs[0].pos) <= |x.text|;
      assert rs[0] in rs;
      assert forall r :: r in rs[1..] ==> r in rs;
      ResultsLater(x, back, p, rs[0]);
      AllLater(x, back, p, rs[1..], s);
    }
  }

  /** Every match of the pattern moves. */
  ghost predicate Advances(x: Ctx, back: bool, a: Node, cc: nat) {
    forall s: Res, r :: InText(x, s) && r in Results(x, back, Once(a, cc), s) ==> Room(x, back, r.pos) < Room(x, back, s.pos)
  }

  /** Continuing every state with no further iteration changes nothing. */
  lemma {:induction false} AllNone(x: Ctx, back: bool, a: Node, cc: nat, greedy: bool, rs: seq<Res>)
    ensures All(x, back, Rep(a, cc, 0, 0, false, greedy), rs) == rs
    decreases |rs|
  {
    if rs != [] {
      AllNone(x, back, a, cc, greedy, rs[1..]);
      assert rs == [rs[0]] + rs[1..];
    }
  }
}

/** The loop shapes of re_parse_term play the repetition of their atom. A shape
    is given by what its head, its tail and its atom do. */
module RegexLoops {
  import opened RegexSyntax
  import opened RegexSemantics
  import opened RegexMachine
  import opened RegexDelivery
  import opened RegexProgress

  ghost predicate Unwinds(go: Rel) {
    forall u: Saved, base :: UnwindsTo(go, u, base)
  }

  ghost predicate UnwindsTo(go: Rel, u: Saved, base: seq<Saved>) {
    u.kind.SplitState? ==> go(Fail(base + [u]), Resume(u, u.caps, base))
  }

  function AtRes(pc: int, r: Res, stack: seq<int>, base: seq<Saved>): State {
    Run(pc, r.pos, r.caps, stack, base)
  }

  function Mark(check: bool, pos: nat): seq<int> { if check then [pos] else [] }

  function SplitAt(pc: int, r: Res, stack: seq<int>): Saved {
    Saved(SplitState, pc, r.pos, r.caps, stack, 0)
  }

  /** The head of a loop at `h`: enter the atom at `a` or leave to `exit`, in the
      order of greediness, saving the other choice. */
  ghost predicate Head(go: Rel, greedy: bool, check: bool, h: int, a: int, exit: int, r: Res, stack: seq<int>, base: seq<Saved>) {
    go(AtRes(h, r, stack, base),
       if greedy then AtRes(a, r, stack + Mark(check, r.pos), base + [SplitAt(exit, r, stack)])
       else AtRes(exit, r, stack, base + [SplitAt(a, r, stack)]))
  }

  /** The end of an iteration at `z`, begun at position `start`. */
  ghost predicate Tail(go: Rel, check: bool, z: int, h: int, exit: int, start: nat, r: Res, stack: seq<int>, base: seq<Saved>) {
    go(AtRes(z, r, stack + Mark(check, start), base), AtRes(if check && r.pos == start then exit else h, r, stack, base))
  }

  ghost predicate Heads(go: Rel, greedy: bool, check: bool, h: int, a: int, exit: int) {
    forall r, stack, base :: Head(go, greedy, check, h, a, exit, r, stack, base)
  }

  ghost predicate Tails(go: Rel, check: bool, z: int, h: int, exit: int) {
    forall start, r, stack, base :: Tail(go, check, z, h, exit, start, r, stack, base)
  }

  /** The code from `a` to `z` plays the atom, whatever surrounds it. */
  ghost predicate Atom(go: Rel, x: Ctx, back: bool, p: Plan, a: int, z: int) {
    forall r, stack, base :: InText(x, r) ==> Plays(go, x, back, p, r, a, stack, z, stack, base)
  }

  ghost predicate Ready(go: Rel) { Transitive(go) && Unwinds(go) }

  /** The choice at the head of a loop: `more` from the atom, `[r]` from the exit. */
  lemma ChoiceDelivers(go: Rel, greedy: bool, check: bool, h: int, a: int, exit: int, r: Res, stk: seq<int>,
                       more: seq<Res>, end: int, stack: seq<int>, base: seq<Saved>)
    requires Ready(go) && (check ==> greedy) && Head(go, greedy, check, h, a, exit, r, stk, base)
    requires var b := if greedy then base + [SplitAt(exit, r, stk)] else base;
      Delivers(go, AtRes(a, r, stk + Mark(check, r.pos), b), more, end, stack, b)
    requires var b := if greedy then base else base + [SplitAt(a, r, stk)];
      Delivers(go, AtRes(exit, r, stk, b), [r], end, stack, b)
    ensures Delivers(go, AtRes(h, r, stk, base), if greedy then more + [r] else [r] + more, end, stack, base)
  {
    if greedy {
      var u := SplitAt(exit, r, stk);
      var m := AtRes(a, r, stk + Mark(check, r.pos), base + [u]);
      assert UnwindsTo(go, u, base);
      DeliversSplit(go, m, u, more, [r], end, stack, base);
      DeliversAfter(go, AtRes(h, r, stk, base), m, more + [r], end, stack, base);
    } else {
      var u := SplitAt(a, r, stk);
      var m := AtRes(exit, r, stk, base + [u]);
      assert stk + Mark(check, r.pos) == stk;
      assert UnwindsTo(go, u, base);
      DeliversSplit(go, m, u, [r], more, end, stack, base);
      DeliversAfter(go, AtRes(h, r, stk, base), m, [r] + more, end, stack, base);
    }
  }

  lemma {:induction false} StarPlays(go: Rel, x: Ctx, back: bool, node: Node, cc: nat, greedy: bool, check: bool,
                                     h: int, a: int, z: int, exit: int, r: Res, stack: seq<int>, base: seq<Saved>)
    requires Ready(go) && InText(x, r) && (check ==> greedy)
    requires Heads(go, greedy, check, h, a, exit) && Tails(go, check, z, h, exit)
    requires Atom(go, x, back, Once(node, cc), a, z)
    requires check || Advances(x, back, node, cc)
    ensures Plays(go, x, back, Rep(node, cc, 0, 0, true, greedy), r, h, stack, exit, stack, base)
    decreases Room(x, back, r.pos), 1
  {
    var more := All(x, back, Again(node, cc, greedy, Room(x, back, r.pos)), Results(x, back, Once(node, cc), r));
    var u := SplitAt(if greedy then exit else a, r, stack);
    assert Head(go, greedy, check, h, a, exit, r, stack, base);
    StarBody(go, x, back, node, cc, greedy, check, h, a, z, exit, r, stack, if greedy then base + [u] else base);
    DeliversOne(go, r, exit, stack, if greedy then base else base + [u]);
    ChoiceDelivers(go, greedy, check, h, a, exit, r, stack, more, exit, stack, base);
  }

  /** One iteration and everything after it. */
  lemma {:induction false} StarBody(go: Rel, x: Ctx, back: bool, node: Node, cc: nat, greedy: bool, check: bool,
                                    h: int, a: int, z: int, exit: int, r: Res, stack: seq<int>, base: seq<Saved>)
    requires Ready(go) && InText(x, r) && (check ==> greedy)
    requires Heads(go, greedy, check, h, a, exit) && Tails(go, check, z, h, exit)
    requires Atom(go, x, back, Once(node, cc), a, z)
    requires check || Advances(x, back, node, cc)
    ensures Delivers(go, AtRes(a, r, stack + Mark(check, r.pos), base),
                     All(x, back, Again(node, cc, greedy, Room(x, back, r.pos)), Results(x, back, Once(node, cc), r)),
                     exit, stack, base)
    decreases Room(x, back, r.pos), 0
  {
    var marked := stack + Mark(check, r.pos);
    var room := Room(x, back, r.pos);
    var next := Again(node, cc, greedy, room);
    var rs := Results(x, back, Once(node, cc), r);
    ResultsLater(x, back, Once(node, cc), r);
    assert Plays(go, x, back, Once(node, cc), r, a, marked, z, marked, base);
    forall q, t | q in rs && Discardable(t)
      ensures Plays(go, x, back, next, q, z, marked, exit, stack, base + t)
    {
      assert Later(x, back, r, q);
      assert Tail(go, check, z, h, exit, r.pos, q, stack, base + t);
      if Room(x, back, q.pos) < room {
        StarPlays(go, x, back, node, cc, greedy, check, h, a, z, exit, q, stack, base + t);
        DeliversAfter(go, AtRes(z, q, marked, base + t), AtRes(h, q, stack, base + t),
                      Results(x, back, next, q), exit, stack, base + t);
      } else {
        DeliversOne(go, q, exit, stack, base + t);
        DeliversAfter(go, AtRes(z, q, marked, base + t), AtRes(exit, q, stack, base + t), [q], exit, stack, base + t);
      }
    }
    DeliversAll(go, x, back, AtRes(a, r, marked, base), rs, z, marked, next, exit, stack, base);
  }

  /** The end of a counted iteration: back to `h` unless the count is used up. */
  ghost predicate Counts(go: Rel, z: int, h: int, drop: int) {
    forall k, r, stack, base :: CountsAt(go, z, h, drop, k, r, stack, base)
  }

  ghost predicate CountsAt(go: Rel, z: int, h: int, drop: int, k: int, r: Res, stack: seq<int>, base: seq<Saved>) {
    go(AtRes(z, r, stack + [k], base), AtRes(if k - 1 != 0 then h else drop, r, stack + [k - 1], base))
  }

  ghost predicate Drops(go: Rel, drop: int, end: int) {
    forall k, r, stack, base :: DropsAt(go, drop, end, k, r, stack, base)
  }

  ghost predicate DropsAt(go: Rel, drop: int, end: int, k: int, r: Res, stack: seq<int>, base: seq<Saved>) {
    go(AtRes(drop, r, stack + [k], base), AtRes(end, r, stack, base))
  }

  /** At most `k` iterations. */
  lemma {:induction false} UpToPlays(go: Rel, x: Ctx, back: bool, node: Node, cc: nat, greedy: bool, k: nat,
                                     h: int, a: int, z: int, drop: int, end: int, r: Res, stack: seq<int>, base: seq<Saved>)
    requires Ready(go) && InText(x, r) && k >= 1
    requires Heads(go, greedy, false, h, a, drop) && Counts(go, z, h, drop) && Drops(go, drop, end)
    requires Atom(go, x, back, Once(node, cc), a, z)
    ensures Plays(go, x, back, Rep(node, cc, 0, k, false, greedy), r, h, stack + [k], end, stack, base)
    decreases k, 1
  {
    var stk := stack + [k];
    var more := All(x, back, Rep(node, cc, 0, k - 1, false, greedy), Results(x, back, Once(node, cc), r));
    var u := SplitAt(if greedy then drop else a, r, stk);
    assert Head(go, greedy, false, h, a, drop, r, stk, base);
    assert stk + Mark(false, r.pos) == stk;
    UpToBody(go, x, back, node, cc, greedy, k, h, a, z, drop, end, r, stack, if greedy then base + [u] else base);
    DropOne(go, drop, end, k, r, stack, if greedy then base else base + [u]);
    ChoiceDelivers(go, greedy, false, h, a, drop, r, stk, more, end, stack, base);
  }

  lemma DropOne(go: Rel, drop: int, end: int, k: int, r: Res, stack: seq<int>, base: seq<Saved>)
    requires Ready(go) && Drops(go, drop, end)
    ensures Delivers(go, AtRes(drop, r, stack + [k], base), [r], end, stack, base)
  {
    assert DropsAt(go, drop, end, k, r, stack, base);
    DeliversOne(go, r, end, stack, base);
    DeliversAfter(go, AtRes(drop, r, stack + [k], base), AtRes(end, r, stack, base), [r], end, stack, base);
  }

  lemma {:induction false} UpToBody(go: Rel, x: Ctx, back: bool, node: Node, cc: nat, greedy: bool, k: nat,
                                    h: int, a: int, z: int, drop: int, end: int, r: Res, stack: seq<int>, base: seq<Saved>)
    requires Ready(go) && InText(x, r) && k >= 1
    requires Heads(go, greedy, false, h, a, drop) && Counts(go, z, h, drop) && Drops(go, drop, end)
    requires Atom(go, x, back, Once(node, cc), a, z)
    ensures Delivers(go, AtRes(a, r, stack + [k], base),
                     All(x, back, Rep(node, cc, 0, k - 1, false, greedy), Results(x, back, Once(node, cc), r)),
                     end, stack, base)
    decreases k, 0
  {
    var stk := stack + [k];
    var next := Rep(node, cc, 0, k - 1, false, greedy);
    var rs := Results(x, back, Once(node, cc), r);
    ResultsLater(x, back, Once(node, cc), r);
    assert Plays(go, x, back, Once(node, cc), r, a, stk, z, stk, base);
    forall q, t | q in rs && Discardable(t)
      ensures Plays(go, x, back, next, q, z, stk, end, stack, base + t)
    {
      assert Later(x, back, r, q);
      assert CountsAt(go, z, h, drop, k, q, stack, base + t);
      if k == 1 {
        DropOne(go, drop, end, 0, q, stack, base + t);
        DeliversAfter(go, AtRes(z, q, stk, base + t), AtRes(drop, q, stack + [0], base + t), [q], end, stack, base + t);
      } else {
        UpToPlays(go, x, back, node, cc, greedy, k - 1, h, a, z, drop, end, q, stack, base + t);
        DeliversAfter(go, AtRes(z, q, stk, base + t), AtRes(h, q, stack + [k - 1], base + t),
                      Results(x, back, next, q), end, stack, base + t);
      }
    }
    DeliversAll(go, x, back, AtRes(a, r, stk, base), rs, z, stk, next, end, stack, base);
  }

  /** `k` iterations, then the rest of the repetition. */
  lemma {:induction false} ExactPlays(go: Rel, x: Ctx, back: bool, node: Node, cc: nat, k: nat, opt: nat, unbounded: bool, greedy: bool,
                                      a: int, z: int, drop: int, rest: int, end: int, r: Res, stack: seq<int>, base: seq<Saved>)
    requires Ready(go) && InText(x, r) && k >= 1
    requires Counts(go, z, a, drop) && Drops(go, drop, rest)
    requires Atom(go, x, back, Once(node, cc), a, z)
    requires Atom(go, x, back, Rep(node, cc, 0, opt, unbounded, greedy), rest, end)
    ensures Plays(go, x, back, Rep(node, cc, k, opt, unbounded, greedy), r, a, stack + [k], end, stack, base)
    decreases k
  {
    var stk := stack + [k];
    var next := Rep(node, cc, k - 1, opt, unbounded, greedy);
    var rs := Results(x, back, Once(node, cc), r);
    ResultsLater(x, back, Once(node, cc), r);
    assert Plays(go, x, back, Once(node, cc), r, a, stk, z, stk, base);
    forall q, t | q in rs && Discardable(t)
      ensures Plays(go, x, back, next, q, z, stk, end, stack, base + t)
    {
      assert Later(x, back, r, q);
      assert CountsAt(go, z, a, drop, k, q, stack, base + t);
      if k == 1 {
        assert DropsAt(go, drop, rest, 0, q, stack, base + t);
        Chain(go, AtRes(z, q, stk, base + t), AtRes(drop, q, stack + [0], base + t), AtRes(rest, q, stack, base + t));
        assert Plays(go, x, back, next, q, rest, stack, end, stack, base + t);
        DeliversAfter(go, AtRes(z, q, stk, base + t), AtRes(rest, q, stack, base + t),
                      Results(x, back, next, q), end, stack, base + t);
      } else {
        ExactPlays(go, x, back, node, cc, k - 1, opt, unbounded, greedy, a, z, drop, rest, end, q, stack, base + t);
        DeliversAfter(go, AtRes(z, q, stk, base + t), AtRes(a, q, stack + [k - 1], base + t),
                      Results(x, back, next, q), end, stack, base + t);
      }
    }
    DeliversAll(go, x, back, AtRes(a, r, stk, base), rs, z, stk, next, end, stack, base);
  }

  /** The atom once, then the rest of the repetition. */
  lemma OncePlays(go: Rel, x: Ctx, back: bool, node: Node, cc: nat, opt: nat, unbounded: bool, greedy: bool,
                  a: int, z: int, end: int, r: Res, stack: seq<int>, base: seq<Saved>)
    requires Ready(go) && InText(x, r)
    requires Atom(go, x, back, Once(node, cc), a, z)
    requires Atom(go, x, back, Rep(node, cc, 0, opt, unbounded, greedy), z, end)
    ensures Plays(go, x, back, Rep(node, cc, 1, opt, unbounded, greedy), r, a, stack, end, stack, base)
  {
    ThenPlays(go, x, back, Once(node, cc), Rep(node, cc, 0, opt, unbounded, greedy), a, z, end, r, stack, base);
  }

  /** One plan after the other. */
  lemma ThenPlays(go: Rel, x: Ctx, back: bool, p: Plan, q: Plan, a: int, z: int, end: int, r: Res, stack: seq<int>, base: seq<Saved>)
    requires Ready(go) && InText(x, r)
    requires Atom(go, x, back, p, a, z) && Atom(go, x, back, q, z, end)
    ensures Delivers(go, AtRes(a, r, stack, base), All(x, back, q, Results(x, back, p, r)), end, stack, base)
  {
    var rs := Results(x, back, p, r);
    ResultsLater(x, back, p, r);
    assert Plays(go, x, back, p, r, a, stack, z, stack, base);
    forall s, t | s in rs && Discardable(t)
      ensures Plays(go, x, back, q, s, z, stack, end, stack, base + t)
    {
      assert Later(x, back, r, s);
    }
    DeliversAll(go, x, back, AtRes(a, r, stack, base), rs, z, stack, q, end, stack, base);
  }

  /** An optional atom. */
  lemma OptionalPlays(go: Rel, x: Ctx, back: bool, node: Node, cc: nat, greedy: bool,
                      h: int, a: int, z: int, r: Res, stack: seq<int>, base: seq<Saved>)
    requires Ready(go) && InText(x, r)
    requires Heads(go, greedy, false, h, a, z)
    requires Atom(go, x, back, Once(node, cc), a, z)
    ensures Plays(go, x, back, Rep(node, cc, 0, 1, false, greedy), r, h, stack, z, stack, base)
  {
    var more := Results(x, back, Once(node, cc), r);
    AllNone(x, back, node, cc, greedy, more);
    var u := SplitAt(if greedy then z else a, r, stack);
    assert Head(go, greedy, false, h, a, z, r, stack, base);
    assert stack + Mark(false, r.pos) == stack;
    assert Plays(go, x, back, Once(node, cc), r, a, stack, z, stack, if greedy then base + [u] else base);
    DeliversOne(go, r, z, stack, if greedy then base else base + [u]);
    ChoiceDelivers(go, greedy, false, h, a, z, r, stack, more, z, stack, base);
  }

  /** Two alternatives: the first one, a jump over the second one, and the
      second one from the saved state. */
  lemma AltPlays(go: Rel, x: Ctx, back: bool, p: Plan, q: Plan,
                 h: int, a: int, z: int, b: int, end: int, r: Res, stack: seq<int>, base: seq<Saved>)
    requires Ready(go) && InText(x, r)
    requires Heads(go, true, false, h, a, b)
    requires Jumps(go, z, end)
    requires Atom(go, x, back, p, a, z) && Atom(go, x, back, q, b, end)
    ensures Delivers(go, AtRes(h, r, stack, base), Results(x, back, p, r) + Results(x, back, q, r), end, stack, base)
  {
    var u := SplitAt(b, r, stack);
    var m := AtRes(a, r, stack, base + [u]);
    var rs := Results(x, back, p, r);
    assert Head(go, true, false, h, a, b, r, stack, base);
    assert stack + Mark(false, r.pos) == stack;
    assert Plays(go, x, back, p, r, a, stack, z, stack, base + [u]);
    forall i, t | 0 <= i < |rs| && Discardable(t)
      ensures go(AtRes(z, rs[i], stack, base + [u] + t), AtRes(end, rs[i], stack, base + [u] + t))
    {
      assert JumpsAt(go, z, end, rs[i], stack, base + [u] + t);
    }
    DeliversOn(go, m, rs, z, stack, rs, end, stack, base + [u]);
    assert UnwindsTo(go, u, base);
    assert Plays(go, x, back, q, r, b, stack, end, stack, base);
    DeliversSplit(go, m, u, rs, Results(x, back, q, r), end, stack, base);
    DeliversAfter(go, AtRes(h, r, stack, base), m, rs + Results(x, back, q, r), end, stack, base);
  }

  ghost predicate Jumps(go: Rel, z: int, end: int) {
    forall s, stack, base :: JumpsAt(go, z, end, s, stack, base)
  }

  ghost predicate JumpsAt(go: Rel, z: int, end: int, r: Res, stack: seq<int>, base: seq<Saved>) {
    go(AtRes(z, r, stack, base), AtRes(end, r, stack, base))
  }
}
