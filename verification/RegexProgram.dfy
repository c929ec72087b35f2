/** A whole compiled pattern: the search over start positions, and the result
    of lre_exec. */
module RegexProgram {
  import opened Bytes
  import opened RegexSyntax
  import opened RegexSemantics
  import opened RegexEquations
  import opened Bytecode
  import opened RegexEmit
  import opened RegexMachine
  import opened RegexDelivery
  import opened RegexProgress
  import opened RegexLoops
  import opened RegexOpcodes
  import opened RegexCorrectness
  import opened RegexAdvance
  import opened RegexCaptures

  /** The matches of the pattern that start at `s`, with capture 0 around them. */
  ghost function Attempt(x: Ctx, r: Node, s: Res): seq<Res> {
    Results(x, false, Once(Group(r), 0), s)
  }

  /** The matches of all attempts: at the start position only when the pattern
      is sticky, and otherwise at every position from there on. */
  ghost function Found(x: Ctx, r: Node, s: Res): seq<Res>
    decreases Room(x, false, s.pos)
  {
    Attempt(x, r, s) + if !x.env.sticky && s.pos < |x.text| then Found(x, r, s.(pos := s.pos + 1)) else []
  }

  ghost function Verdict(rs: seq<Res>): State {
    if rs == [] then NoMatch else Matched(rs[0].caps)
  }

  /** A pattern for the opcode `any`. */
  const AnyNode: Node := Class([0, UINT32_MAX])

  lemma AnyCodePlays(go: Rel, x: Ctx, code: Code)
    requires Runs(go, x, code) && WellFormedCtx(x)
    ensures Portable(go, x, code, false, Once(AnyNode, 0), [Any])
  {
    hide Results, At, Len, Plays, Runs, StepInstr;
    forall pc: int | At(code, pc, [Any]) ensures Atom(go, x, false, Once(AnyNode, 0), pc, pc + Len([Any])) {
      AtLast(code, pc, Any);
      var end := pc + 1;
      forall s: Res, stack: seq<int>, base: seq<Saved> | InText(x, s)
        ensures Plays(go, x, false, Once(AnyNode, 0), s, pc, stack, end, stack, base)
      {
        AnyResults(x, s);
        AnySteps(x, code, s, pc, stack, base);
        OneStep(go, x, code, false, Once(AnyNode, 0), s, pc, Any, stack, base);
      }
    }
  }

  lemma AnySteps(x: Ctx, code: Code, s: Res, pc: int, stack: seq<int>, base: seq<Saved>)
    ensures StepInstr(x, code, AtRes(pc, s, stack, base), Any)
      == if s.pos < |x.text| then Run(pc + 1, s.pos + 1, s.caps, stack, base) else Fail(base)
  {
  }

  lemma AnyResults(x: Ctx, s: Res)
    requires WellFormedCtx(x)
    ensures Results(x, false, Once(AnyNode, 0), s) == if s.pos < |x.text| then [s.(pos := s.pos + 1)] else []
  {
    CharResults(x, false, AnyNode, 0, s);
    if s.pos < |x.text| {
      var c := Fold(x.env, x.text[s.pos]);
      assert AnyNode.points[2 * 0] <= c < AnyNode.points[2 * 0 + 1];
    }
  }

  lemma AnyAdvances(x: Ctx)
    ensures Advances(x, false, AnyNode, 0)
  {
    CharAdvances(x, false, AnyNode, 0);
  }

  /** The lazy loop over `any` offers every start position in turn. */
  lemma {:induction false} SearchIsLazyLoop(x: Ctx, r: Node, s: Res)
    requires WellFormedCtx(x) && !x.env.sticky
    ensures All(x, false, Once(Group(r), 0), Results(x, false, Rep(AnyNode, 0, 0, 0, true, false), s)) == Found(x, r, s)
    decreases Room(x, false, s.pos)
  {
    hide NodeResults;
    var p := Once(Group(r), 0);
    var again := Again(AnyNode, 0, false, Room(x, false, s.pos));
    AnyResults(x, s);
    LazyUnfold(x, s);
    var more := All(x, false, again, Results(x, false, Once(AnyNode, 0), s));
    AllConcat(x, false, p, [s], more);
    AllOne(x, false, p, s);
    if s.pos < |x.text| {
      var q := s.(pos := s.pos + 1);
      SearchIsLazyLoop(x, r, q);
      AllOne(x, false, again, q);
    } else {
      assert more == [];
      assert All(x, false, p, []) == [];
    }
  }

  lemma LazyUnfold(x: Ctx, s: Res)
    ensures Results(x, false, Rep(AnyNode, 0, 0, 0, true, false), s)
      == [s] + All(x, false, Again(AnyNode, 0, false, Room(x, false, s.pos)), Results(x, false, Once(AnyNode, 0), s))
  {
  }

  lemma AllOne(x: Ctx, back: bool, p: Plan, s: Res)
    ensures All(x, back, p, [s]) == Results(x, back, p, s)
  {
    hide Results;
    assert [s][1..] == [];
    assert All(x, back, p, []) == [];
  }

  lemma {:induction false} AllConcat(x: Ctx, back: bool, p: Plan, a: seq<Res>, b: seq<Res>)
    ensures All(x, back, p, a + b) == All(x, back, p, a) + All(x, back, p, b)
    decreases |a|
  {
    hide Results;
    if a == [] {
      assert a + b == b;
    } else {
      assert (a + b)[0] == a[0] && (a + b)[1..] == a[1..] + b;
      AllConcat(x, back, p, a[1..], b);
    }
  }

  /** The program is the search prefix, the pattern as capture 0, and `match`. */
  lemma ProgramLayout(code: Code, pc: int, e: Env, r: Node)
    requires At(code, pc, Program(e, r))
    ensures var z := pc + Len(Prefix(e.sticky));
      var c := Emit(e, Group(r), false, 0);
      && At(code, pc, Prefix(e.sticky)) && At(code, z, c) && code.fetch(z + Len(c)) == Got(Match)
  {
    hide At, Len;
    var c := Emit(e, Group(r), false, 0);
    assert Program(e, r) == Prefix(e.sticky) + (c + [Match]);
    AtConcat(code, pc, Prefix(e.sticky), c + [Match]);
    AtConcat(code, pc + Len(Prefix(e.sticky)), c, [Match]);
    AtLast(code, pc + Len(Prefix(e.sticky)) + Len(c), Match);
  }

  lemma ProgramDelivers(go: Rel, x: Ctx, code: Code, pc: int, r: Node, s: Res)
    requires Runs(go, x, code) && WellFormed(r) && WellFormedCtx(x) && Supported(x, false, r, 1) && InText(x, s)
    requires At(code, pc, Program(x.env, r))
    ensures var end := pc + Len(Prefix(x.env.sticky)) + Len(Emit(x.env, Group(r), false, 0));
      code.fetch(end) == Got(Match) && Delivers(go, AtRes(pc, s, [], []), Found(x, r, s), end, [], [])
  {
    hide At, Len, Emit, Runs, Advances, Unwinds, WellFormedCtx, Results, All;
    RunsReady(go, x, code);
    ProgramLayout(code, pc, x.env, r);
    var c := Emit(x.env, Group(r), false, 0);
    var z := pc + Len(Prefix(x.env.sticky));
    var end := z + Len(c);
    NodePlays(go, x, code, false, Group(r), 0, z);
    if x.env.sticky {
      LenNil();
      assert Plays(go, x, false, Once(Group(r), 0), s, pc, [], end, [], []);
      assert Found(x, r, s) == Attempt(x, r, s);
    } else {
      assert Prefix(false) == StarCode([Any], false, false) by { LenSnoc([], Any); LenNil(); assert [] + [Any] == [Any]; }
      AnyCodePlays(go, x, code);
      AnyAdvances(x);
      StarCodePlays(go, x, code, false, AnyNode, 0, [Any], false, false, pc);
      ThenPlays(go, x, false, Rep(AnyNode, 0, 0, 0, true, false), Once(Group(r), 0), pc, z, end, s, [], []);
      SearchIsLazyLoop(x, r, s);
    }
  }

  /** From the first match offered at `match` to the result. */
  lemma Finishes(go: Rel, x: Ctx, code: Code, s: State, rs: seq<Res>, end: int)
    requires Runs(go, x, code) && code.fetch(end) == Got(Match) && Delivers(go, s, rs, end, [], [])
    ensures go(s, Verdict(rs))
  {
    if rs == [] {
      var v := Step(x, code, Fail([]));
      Chain(go, s, Fail([]), v);
    } else {
      var t := OfferOf(go, s, rs, end, [], []);
      var m := AtRes(end, rs[0], [], [] + t);
      MatchFinishes(go, x, code, rs[0], end, [] + t, t);
      Chain(go, s, m, Matched(rs[0].caps));
    }
  }

  lemma MatchFinishes(go: Rel, x: Ctx, code: Code, q: Res, end: int, base: seq<Saved>, t: seq<Saved>)
    requires Runs(go, x, code) && code.fetch(end) == Got(Match) && Discardable(t) && base == [] + t
    ensures go(AtRes(end, q, [], base), Matched(q.caps))
  {
    var m := AtRes(end, q, [], base);
    Executes(go, x, code, m, Match);
    Discards(go, x, code, q.caps, [], t);
    Chain(go, m, Succeed(q.caps, base), Succeed(q.caps, []));
    var v := Step(x, code, Succeed(q.caps, []));
    Chain(go, m, Succeed(q.caps, []), v);
  }

  function Nulls(n: nat): (caps: seq<int>)
    ensures |caps| == n
  {
    seq(n, k => -1)
  }

  /** Compiler correctness: from the initial state, the machine running the
      bytes of a supported pattern halts, with the captures of the first match
      of the leftmost attempt that has one, or without a match when no attempt
      has one. */
  lemma RunsToFirstMatch(x: Ctx, bytes: seq<byte>, pc: int, r: Node, s: Res)
    requires WellFormed(r) && WellFormedCtx(x) && Supported(x, false, r, 1) && InText(x, s)
    requires AllEncodable(Program(x.env, r)) && Lies(bytes, pc, Encode(Program(x.env, r)))
    ensures exists n: nat :: Steps(x, Load(bytes), AtRes(pc, s, [], []), n) == Verdict(Found(x, r, s))
  {
    hide Runs, WellFormed, WellFormedCtx, Supported, Encode, Found, Delivers, Program, Emit, Lies, Steps;
    var code := Load(bytes);
    var go := Reachable(x, code);
    ReachesRuns(x, code);
    AtStored(bytes, pc, Program(x.env, r));
    ProgramDelivers(go, x, code, pc, r, s);
    Finishes(go, x, code, AtRes(pc, s, [], []), Found(x, r, s), pc + Len(Prefix(x.env.sticky)) + Len(Emit(x.env, Group(r), false, 0)));
    assert Reaches(x, code, AtRes(pc, s, [], []), Verdict(Found(x, r, s)));
  }

  /** The first match found is the first match of the leftmost attempt that has
      any, and its capture 0 starts where that attempt starts. */
  lemma {:induction false} FoundIsLeftmost(x: Ctx, r: Node, s: Res) returns (start: nat)
    requires Found(x, r, s) != [] && InText(x, s)
    ensures s.pos <= start <= |x.text| && (x.env.sticky ==> start == s.pos)
    ensures Attempt(x, r, s.(pos := start)) != [] && Found(x, r, s)[0] == Attempt(x, r, s.(pos := start))[0]
    ensures forall k: nat :: s.pos <= k < start ==> Attempt(x, r, s.(pos := k)) == []
    ensures |s.caps| >= 2 ==>
      var q := Found(x, r, s)[0];
      |q.caps| == |s.caps| && q.caps[0] == start && q.caps[1] == q.pos && start <= q.pos <= |x.text|
    decreases Room(x, false, s.pos)
  {
    hide Attempt;
    if Attempt(x, r, s) != [] {
      start := s.pos;
      assert s.(pos := start) == s;
      if |s.caps| >= 2 { AttemptEnds(x, r, s); }
    } else {
      var q := s.(pos := s.pos + 1);
      start := FoundIsLeftmost(x, r, q);
      forall k: nat | s.pos <= k < start ensures Attempt(x, r, s.(pos := k)) == [] {
        if k == s.pos { assert s.(pos := k) == s; } else { assert s.(pos := k) == q.(pos := k); }
      }
      assert s.(pos := start) == q.(pos := start);
    }
  }

  lemma AttemptEnds(x: Ctx, r: Node, s: Res)
    requires InText(x, s) && Attempt(x, r, s) != [] && |s.caps| >= 2
    ensures var q := Attempt(x, r, s)[0];
      |q.caps| == |s.caps| && q.caps[0] == s.pos && q.caps[1] == q.pos && s.pos <= q.pos <= |x.text|
  {
    hide Results;
    var q := Attempt(x, r, s)[0];
    assert q in Results(x, false, Once(Group(r), 0), s);
    GroupEnds(x, false, r, 0, s, q);
    ResultsLater(x, false, Once(Group(r), 0), s);
    assert Later(x, false, s, q);
  }

  /** What the captures of a search from `start` on say: capture 0 is where the
      pattern matches first, each group a text that its body matched, or unset. */
  ghost predicate Captured(x: Ctx, r: Node, start: nat, caps: seq<int>) {
    && |caps| == 2 * (1 + NCaps(r)) && start <= caps[0] <= caps[1] <= |x.text| && (x.env.sticky ==> caps[0] == start)
    && (forall k: nat :: start <= k < caps[0] ==> NoneAt(x, r, k))
    && BodyMatches(x, r, false, 0, caps[0], caps[1]) && GroupsSpan(x, false, Group(r), 0, caps)
  }

  ghost predicate NoneAt(x: Ctx, r: Node, k: nat) {
    Attempt(x, r, Res(k, Nulls(2 * (1 + NCaps(r))))) == []
  }

  lemma FoundCaptures(x: Ctx, r: Node, start: nat)
    requires start <= |x.text|
    ensures var found := Found(x, r, Res(start, Nulls(2 * (1 + NCaps(r)))));
      found != [] ==> Captured(x, r, start, found[0].caps)
  {
    hide Found, Results, BodyMatches, GroupsSpan;
    var n := 2 * (1 + NCaps(r));
    var s := Res(start, Nulls(n));
    if Found(x, r, s) != [] {
      var at := FoundIsLeftmost(x, r, s);
      var q := Found(x, r, s)[0];
      assert q in Results(x, false, Once(Group(r), 0), s.(pos := at));
      GroupEnds(x, false, r, 0, s.(pos := at), q);
      WholeCaptures(x, r, s.(pos := at), q);
      forall k: nat | start <= k < q.caps[0] ensures NoneAt(x, r, k) { assert s.(pos := k) == Res(k, Nulls(n)); }
    }
  }
}
