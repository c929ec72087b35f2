/** Where the machine stops and where it does not. No zero-advance check is
    emitted for lazy loops and for loops whose atom refers to a capture of its
    own (libregexp.c, lines 1594-1598); such a loop, once what follows it fails,
    runs for ever exactly when it can come back to a position with the same
    captures. */
module RegexLimits {
  import opened Bytes
  import opened RegexSyntax
  import opened RegexSemantics
  import opened RegexEquations
  import opened Bytecode
  import opened RegexEmit
  import opened RegexMachine
  import opened RegexDelivery
  import opened RegexProgress
  import opened RegexOpcodes
  import opened RegexCorrectness
  import opened RegexProgram
  import opened RegexRecurrence

  // The machine on the loop

  /** The machine at an address with a match state. */
  function AtState(pc: int, s: Res, stack: seq<int>, base: seq<Saved>): State {
    Run(pc, s.pos, s.caps, stack, base)
  }

  /** The places of a loop: the split at its head, its atom, and its exit. */
  datatype Places = Places(head: int, atom: int, exit: int)

  /** A split at pc that goes to one place first and to another one later. */
  predicate SplitsAt(code: Code, pc: int, first: int, later: int) {
    || (code.fetch(pc) == Got(SplitNextFirst(later - (pc + 5))) && first == pc + 5)
    || (code.fetch(pc) == Got(SplitGotoFirst(first - (pc + 5))) && later == pc + 5)
  }

  /** Whatever runs from pc on fails. */
  ghost predicate FailsAt(go: Rel, x: Ctx, pc: int) {
    forall s: Res, stack, base {:trigger AtState(pc, s, stack, base)} :: InText(x, s) ==> go(AtState(pc, s, stack, base), Fail(base))
  }

  /** Where the atom ends. */
  function EndAt(x: Ctx, b: Node, l: Places): int {
    l.atom + Len(Emit(x.env, b, false, 1))
  }

  /** An unchecked unbounded loop over b whose exit fails: behind its atom is the
      split, or a jump to it. */
  ghost predicate Loop(go: Rel, x: Ctx, code: Code, b: Node, greedy: bool, l: Places) {
    && WellFormed(b) && WellFormedCtx(x) && Supported(x, false, b, 1) && At(code, l.atom, Emit(x.env, b, false, 1))
    && (l.head == EndAt(x, b, l) || code.fetch(EndAt(x, b, l)) == Got(Goto(l.head - (EndAt(x, b, l) + 5))))
    && SplitsAt(code, l.head, if greedy then l.atom else l.exit, if greedy then l.exit else l.atom)
    && FailsAt(go, x, l.exit)
  }

  /** All matches delivered fail in the end. */
  lemma {:induction false} FailsAll(go: Rel, s: State, rs: seq<Res>, z: int, stack: seq<int>, base: seq<Saved>)
    requires Transitive(go) && Delivers(go, s, rs, z, stack, base)
    requires forall r, t :: r in rs && Discardable(t) ==> go(Run(z, r.pos, r.caps, stack, base + t), Fail(base + t))
    ensures go(s, Fail(base))
    decreases |rs|
  {
    hide Delivers, Discardable;
    if rs == [] {
      DeliversNil(go, s, z, stack, base);
    } else {
      var t := OfferOf(go, s, rs, z, stack, base);
      assert rs[0] in rs && forall r :: r in rs[1..] ==> r in rs;
      FailsAll(go, Fail(base + t), rs[1..], z, stack, base);
      Chain(go, s, Run(z, rs[0].pos, rs[0].caps, stack, base + t), Fail(base + t));
      Chain(go, s, Fail(base + t), Fail(base));
    }
  }

  /** The machine comes to match i when those before it fail. */
  lemma {:induction false} ComesTo(go: Rel, s: State, rs: seq<Res>, i: nat, z: int, stack: seq<int>, base: seq<Saved>) returns (t: seq<Saved>)
    requires Transitive(go) && Delivers(go, s, rs, z, stack, base) && i < |rs|
    requires forall j, u :: 0 <= j < i && Discardable(u) ==> go(Run(z, rs[j].pos, rs[j].caps, stack, base + u), Fail(base + u))
    ensures go(s, Run(z, rs[i].pos, rs[i].caps, stack, base + t))
    decreases i
  {
    hide Delivers, Discardable;
    t := OfferOf(go, s, rs, z, stack, base);
    if i > 0 {
      var first := t;
      Chain(go, s, Run(z, rs[0].pos, rs[0].caps, stack, base + first), Fail(base + first));
      forall j, u | 0 <= j < i - 1 && Discardable(u) ensures go(Run(z, rs[1..][j].pos, rs[1..][j].caps, stack, base + u), Fail(base + u)) {
        assert rs[1..][j] == rs[j + 1];
      }
      t := ComesTo(go, Fail(base + first), rs[1..], i - 1, z, stack, base);
      Chain(go, s, Fail(base + first), Run(z, rs[i].pos, rs[i].caps, stack, base + t));
    }
  }

  lemma Splits(x: Ctx, code: Code, pc: int, first: int, later: int, s: Res, stack: seq<int>, base: seq<Saved>)
    requires SplitsAt(code, pc, first, later)
    ensures Step(x, code, AtState(pc, s, stack, base)) == AtState(first, s, stack, base + [Saved(SplitState, later, s.pos, s.caps, stack, 0)])
  {
  }

  lemma Resumes(x: Ctx, code: Code, pc: int, s: Res, stack: seq<int>, base: seq<Saved>)
    ensures Step(x, code, Fail(base + [Saved(SplitState, pc, s.pos, s.caps, stack, 0)])) == AtState(pc, s, stack, base)
  {
    var u := Saved(SplitState, pc, s.pos, s.caps, stack, 0);
    assert Pop(base + [u]) == base && Top(base + [u]) == u;
  }

  /** What is saved below an iteration: a greedy loop has its exit still to try. */
  function Under(greedy: bool, exit: int, s: Res, stack: seq<int>, base: seq<Saved>): seq<Saved> {
    if greedy then base + [Saved(SplitState, exit, s.pos, s.caps, stack, 0)] else base
  }

  /** From the head the machine enters the atom; a lazy loop tries its exit first. */
  lemma Enters(go: Rel, x: Ctx, code: Code, b: Node, greedy: bool, l: Places, s: Res, stack: seq<int>, base: seq<Saved>)
    requires Runs(go, x, code) && Loop(go, x, code, b, greedy, l) && InText(x, s)
    ensures go(Step(x, code, AtState(l.head, s, stack, base)), AtState(l.atom, s, stack, Under(greedy, l.exit, s, stack, base)))
  {
    hide Step, At, Emit, Supported, EndAt;
    var first, later := if greedy then l.atom else l.exit, if greedy then l.exit else l.atom;
    Splits(x, code, l.head, first, later, s, stack, base);
    if !greedy {
      var above := base + [Saved(SplitState, l.atom, s.pos, s.caps, stack, 0)];
      var out := AtState(l.exit, s, stack, above);
      Resumes(x, code, l.atom, s, stack, base);
      assert go(out, Fail(above)) && go(Fail(above), Step(x, code, Fail(above)));
      Chain(go, out, Fail(above), AtState(l.atom, s, stack, base));
    }
  }

  /** When the atom has failed, a greedy loop tries its exit and fails. */
  lemma Leaves(go: Rel, x: Ctx, code: Code, b: Node, greedy: bool, l: Places, s: Res, stack: seq<int>, base: seq<Saved>)
    requires Runs(go, x, code) && Loop(go, x, code, b, greedy, l) && InText(x, s)
    ensures go(Fail(Under(greedy, l.exit, s, stack, base)), Fail(base))
  {
    hide Step, At, Emit, Supported, EndAt;
    if greedy {
      var above := Under(true, l.exit, s, stack, base);
      Resumes(x, code, l.exit, s, stack, base);
      assert go(Fail(above), Step(x, code, Fail(above)));
      Chain(go, Fail(above), AtState(l.exit, s, stack, base), Fail(base));
    }
  }

  /** The end of an iteration goes back to the head. */
  lemma Returns(go: Rel, x: Ctx, code: Code, b: Node, greedy: bool, l: Places, s: Res, stack: seq<int>, base: seq<Saved>)
    requires Runs(go, x, code) && Loop(go, x, code, b, greedy, l)
    ensures go(AtState(EndAt(x, b, l), s, stack, base), AtState(l.head, s, stack, base))
  {
    hide At, Len, Emit, Supported, EndAt, FailsAt;
    var end := AtState(EndAt(x, b, l), s, stack, base);
    if l.head != EndAt(x, b, l) { assert Step(x, code, end) == AtState(l.head, s, stack, base); }
  }

  /** The atom delivers its matches. */
  lemma AtomDelivers(go: Rel, x: Ctx, code: Code, b: Node, greedy: bool, l: Places, s: Res, stack: seq<int>, base: seq<Saved>)
    requires Runs(go, x, code) && Loop(go, x, code, b, greedy, l) && InText(x, s)
    ensures Delivers(go, AtState(l.atom, s, stack, base), At1(x, b, s), EndAt(x, b, l), stack, base)
  {
    hide Results, Delivers, Runs, At, Len, Emit, Supported, FailsAt;
    NodePlays(go, x, code, false, b, 1, l.atom);
    assert Plays(go, x, false, Once(b, 1), s, l.atom, stack, EndAt(x, b, l), stack, base);
  }

  lemma MatchIn(x: Ctx, b: Node, s: Res, q: Res)
    requires InText(x, s) && q in At1(x, b, s)
    ensures InText(x, q)
  {
    hide Results;
    ResultsLater(x, false, Once(b, 1), s);
    assert Later(x, false, s, q);
  }

  /** A loop that stops fails in the end, with the saved states it was given. */
  lemma {:induction false} EndsFails(go: Rel, x: Ctx, code: Code, b: Node, greedy: bool, l: Places, s: Res, stack: seq<int>, base: seq<Saved>, n: nat)
    requires Runs(go, x, code) && Loop(go, x, code, b, greedy, l) && InText(x, s) && Ends(x, b, s, n)
    ensures go(AtState(l.head, s, stack, base), Fail(base))
    decreases n
  {
    hide Loop, At1, EndAt, Delivers, Step;
    var head, z := AtState(l.head, s, stack, base), EndAt(x, b, l);
    var below := Under(greedy, l.exit, s, stack, base);
    forall r, t | r in At1(x, b, s) && Discardable(t) ensures go(Run(z, r.pos, r.caps, stack, below + t), Fail(below + t)) {
      MatchIn(x, b, s, r);
      Returns(go, x, code, b, greedy, l, r, stack, below + t);
      EndsFails(go, x, code, b, greedy, l, r, stack, below + t, n - 1);
      Chain(go, AtState(z, r, stack, below + t), AtState(l.head, r, stack, below + t), Fail(below + t));
    }
    AtomDelivers(go, x, code, b, greedy, l, s, stack, below);
    FailsAll(go, AtState(l.atom, s, stack, below), At1(x, b, s), z, stack, below);
    Enters(go, x, code, b, greedy, l, s, stack, base);
    Leaves(go, x, code, b, greedy, l, s, stack, base);
    assert go(head, Step(x, code, head));
    Chain(go, head, Step(x, code, head), AtState(l.atom, s, stack, below));
    Chain(go, head, AtState(l.atom, s, stack, below), Fail(below));
    Chain(go, head, Fail(below), Fail(base));
  }

  lemma StopsFails(go: Rel, x: Ctx, code: Code, b: Node, greedy: bool, l: Places, s: Res, stack: seq<int>, base: seq<Saved>)
    requires Runs(go, x, code) && Loop(go, x, code, b, greedy, l) && InText(x, s) && Stops(x, b, s)
    ensures go(AtState(l.head, s, stack, base), Fail(base))
  {
    hide Loop, Ends, Runs;
    var n: nat :| Ends(x, b, s, n);
    EndsFails(go, x, code, b, greedy, l, s, stack, base, n);
  }

  // A loop that does not stop

  predicate Halted(s: State) {
    s.NoMatch? || s.Matched? || s.Stuck?
  }

  ghost predicate NeverHalts(x: Ctx, code: Code, s: State) {
    forall n: nat :: !Halted(Steps(x, code, s, n))
  }

  /** Among the matches there is a first one that does not stop. */
  lemma {:induction false} FirstBad(x: Ctx, b: Node, rs: seq<Res>, k: nat) returns (i: nat)
    requires k < |rs| && !Stops(x, b, rs[k])
    ensures i < |rs| && !Stops(x, b, rs[i]) && forall j :: 0 <= j < i ==> Stops(x, b, rs[j])
    decreases k
  {
    hide Stops;
    if j :| 0 <= j < k && !Stops(x, b, rs[j]) { i := FirstBad(x, b, rs, j); } else { i := k; }
  }

  lemma BadMatch(x: Ctx, b: Node, s: Res) returns (i: nat)
    requires !Stops(x, b, s)
    ensures var rs := At1(x, b, s);
      i < |rs| && !Stops(x, b, rs[i]) && forall j :: 0 <= j < i ==> Stops(x, b, rs[j])
  {
    hide At1, Stops;
    if forall q :: q in At1(x, b, s) ==> Stops(x, b, q) { NonStop(x, b, s); }
    var rs := At1(x, b, s);
    var k :| 0 <= k < |rs| && !Stops(x, b, rs[k]);
    i := FirstBad(x, b, rs, k);
  }

  lemma IterationFails(go: Rel, x: Ctx, code: Code, b: Node, greedy: bool, l: Places, s: Res, stack: seq<int>, base: seq<Saved>)
    requires Runs(go, x, code) && Loop(go, x, code, b, greedy, l) && InText(x, s) && Stops(x, b, s)
    ensures go(AtState(EndAt(x, b, l), s, stack, base), Fail(base))
  {
    hide Loop, Stops, EndAt;
    Returns(go, x, code, b, greedy, l, s, stack, base);
    StopsFails(go, x, code, b, greedy, l, s, stack, base);
    Chain(go, AtState(EndAt(x, b, l), s, stack, base), AtState(l.head, s, stack, base), Fail(base));
  }

  /** An atom all of whose matches stop fails in the end. */
  lemma AtomFails(go: Rel, x: Ctx, code: Code, b: Node, greedy: bool, l: Places, s: Res, stack: seq<int>, base: seq<Saved>)
    requires Runs(go, x, code) && Loop(go, x, code, b, greedy, l) && InText(x, s) && Stops(x, b, s)
    ensures go(AtState(l.atom, s, stack, base), Fail(base))
  {
    hide Loop, At1, EndAt, Delivers, Stops;
    var z := EndAt(x, b, l);
    forall r, t | r in At1(x, b, s) && Discardable(t) ensures go(Run(z, r.pos, r.caps, stack, base + t), Fail(base + t)) {
      MatchIn(x, b, s, r);
      MatchStops(x, b, s, r);
      IterationFails(go, x, code, b, greedy, l, r, stack, base + t);
    }
    AtomDelivers(go, x, code, b, greedy, l, s, stack, base);
    FailsAll(go, AtState(l.atom, s, stack, base), At1(x, b, s), z, stack, base);
  }

  lemma MatchStops(x: Ctx, b: Node, s: Res, q: Res)
    requires Stops(x, b, s) && q in At1(x, b, s)
    ensures Stops(x, b, q)
  {
    hide At1;
    var n: nat :| Ends(x, b, s, n);
    assert Ends(x, b, q, n - 1);
  }

  /** From an atom that does not stop the machine comes to the head of the loop,
      and the loop still does not stop. */
  lemma AtomComes(go: Rel, x: Ctx, code: Code, b: Node, greedy: bool, l: Places, s: Res, stack: seq<int>, base: seq<Saved>)
    returns (q: Res, above: seq<Saved>)
    requires Runs(go, x, code) && Loop(go, x, code, b, greedy, l) && InText(x, s) && !Stops(x, b, s)
    ensures InText(x, q) && !Stops(x, b, q) && go(AtState(l.atom, s, stack, base), AtState(l.head, q, stack, above))
  {
    hide Loop, At1, Stops, EndAt, Delivers, Step;
    var rs, z := At1(x, b, s), EndAt(x, b, l);
    var k := BadMatch(x, b, s);
    forall j, u | 0 <= j < k && Discardable(u) ensures go(Run(z, rs[j].pos, rs[j].caps, stack, base + u), Fail(base + u)) {
      MatchIn(x, b, s, rs[j]);
      IterationFails(go, x, code, b, greedy, l, rs[j], stack, base + u);
    }
    AtomDelivers(go, x, code, b, greedy, l, s, stack, base);
    var t := ComesTo(go, AtState(l.atom, s, stack, base), rs, k, z, stack, base);
    q, above := rs[k], base + t;
    MatchIn(x, b, s, q);
    Returns(go, x, code, b, greedy, l, q, stack, above);
    Chain(go, AtState(l.atom, s, stack, base), AtState(z, q, stack, above), AtState(l.head, q, stack, above));
  }

  /** From the head of such a loop the machine comes, after at least one step, to
      the head again. */
  lemma Progress(go: Rel, x: Ctx, code: Code, b: Node, greedy: bool, l: Places, s: Res, stack: seq<int>, base: seq<Saved>)
    returns (q: Res, above: seq<Saved>)
    requires Runs(go, x, code) && Loop(go, x, code, b, greedy, l) && InText(x, s) && !Stops(x, b, s)
    ensures InText(x, q) && !Stops(x, b, q)
    ensures go(Step(x, code, AtState(l.head, s, stack, base)), AtState(l.head, q, stack, above))
  {
    hide Loop, Stops, Step;
    var below := Under(greedy, l.exit, s, stack, base);
    q, above := AtomComes(go, x, code, b, greedy, l, s, stack, below);
    Enters(go, x, code, b, greedy, l, s, stack, base);
    Chain(go, Step(x, code, AtState(l.head, s, stack, base)), AtState(l.atom, s, stack, below), AtState(l.head, q, stack, above));
  }

  lemma {:induction false} HaltedForGood(x: Ctx, code: Code, s: State, n: nat)
    requires Halted(s)
    ensures Steps(x, code, s, n) == s
    decreases n
  {
    if n > 0 { HaltedForGood(x, code, s, n - 1); }
  }

  /** A state that leads to a running one has not halted on the way. */
  lemma NotYet(x: Ctx, code: Code, s: State, n: nat, m: nat)
    requires !Halted(Steps(x, code, s, m)) && n <= m
    ensures !Halted(Steps(x, code, s, n))
  {
    hide Steps;
    StepsAdd(x, code, s, n, m - n);
    if Halted(Steps(x, code, s, n)) { HaltedForGood(x, code, Steps(x, code, s, n), m - n); }
  }

  lemma {:induction false} RunsOn(x: Ctx, code: Code, b: Node, greedy: bool, l: Places, s: Res, stack: seq<int>, base: seq<Saved>, n: nat)
    requires Loop(Reachable(x, code), x, code, b, greedy, l) && InText(x, s) && !Stops(x, b, s)
    ensures !Halted(Steps(x, code, AtState(l.head, s, stack, base), n))
    decreases n
  {
    hide Loop, Stops, Step;
    if n > 0 {
      ReachesRuns(x, code);
      var head := AtState(l.head, s, stack, base);
      var q, above := Progress(Reachable(x, code), x, code, b, greedy, l, s, stack, base);
      var next, t := Step(x, code, head), AtState(l.head, q, stack, above);
      assert Reaches(x, code, next, t);
      var m: nat :| Steps(x, code, next, m) == t;
      assert Steps(x, code, head, n) == Steps(x, code, next, n - 1);
      if n - 1 <= m {
        NotYet(x, code, next, n - 1, m);
      } else {
        StepsAdd(x, code, next, m, n - 1 - m);
        RunsOn(x, code, b, greedy, l, q, stack, above, n - 1 - m);
      }
    }
  }

  /** A loop that does not stop runs for ever. */
  lemma LoopNeverHalts(x: Ctx, code: Code, b: Node, greedy: bool, l: Places, s: Res, stack: seq<int>, base: seq<Saved>)
    requires Loop(Reachable(x, code), x, code, b, greedy, l) && InText(x, s) && !Stops(x, b, s)
    ensures NeverHalts(x, code, AtState(l.head, s, stack, base))
  {
    hide Loop, Stops, Steps;
    forall n: nat ensures !Halted(Steps(x, code, AtState(l.head, s, stack, base), n)) {
      RunsOn(x, code, b, greedy, l, s, stack, base, n);
    }
  }

  lemma NeverHaltsBefore(x: Ctx, code: Code, s: State, t: State)
    requires Reaches(x, code, s, t) && NeverHalts(x, code, t)
    ensures NeverHalts(x, code, s)
  {
    hide Steps;
    var m: nat :| Steps(x, code, s, m) == t;
    forall n: nat ensures !Halted(Steps(x, code, s, n)) {
      if n <= m {
        StepsAdd(x, code, s, m, 0);
        NotYet(x, code, s, n, m);
      } else {
        StepsAdd(x, code, s, m, n - m);
      }
    }
  }

  // Whole patterns

  /** An unbounded loop, with or without a first mandatory round, and what follows. */
  function LoopThen(b: Node, min: nat, greedy: bool, d: Node): Node {
    Cat(Quant(b, min, INF, greedy), d)
  }

  /** Its code has no zero-advance check: the loop is lazy, or the analysis does
      not answer 0; and it is not the opcode for simple atoms. */
  predicate Unchecked(e: Env, b: Node, greedy: bool) {
    var c := Emit(e, b, false, 1);
    !NeedsCheck(c, greedy) && !UsesGreedyOp(c, INF, greedy)
  }

  /** The pattern matches nowhere in the subject. */
  ghost predicate Fails(x: Ctx, d: Node, cc: nat) {
    forall s: Res :: InText(x, s) ==> Results(x, false, Once(d, cc), s) == []
  }

  /** For example a character that the subject does not hold. */
  lemma MissingFails(x: Ctx, c: int, cc: nat)
    requires forall i :: 0 <= i < |x.text| ==> Fold(x.env, x.text[i]) != Fold(x.env, c)
    ensures Fails(x, Chr(c), cc)
  {
    hide Results;
    forall s: Res | InText(x, s) ensures Results(x, false, Once(Chr(c), cc), s) == [] { CharResults(x, false, Chr(c), cc, s); }
  }

  /** The search tries the start k. */
  predicate Tried(x: Ctx, start: nat, k: nat) {
    start <= k <= |x.text| && (x.env.sticky ==> k == start)
  }

  /** Captures are reset before a loop that may be left at once. */
  predicate ResetsFirst(b: Node, min: nat) { min == 0 && NCaps(b) > 0 }

  /** The state in which the loop is entered at k. */
  function Opened(b: Node, min: nat, k: nat, caps: seq<int>): Res {
    var c := SetCap(caps, 0, k);
    Res(k, if ResetsFirst(b, min) then ResetCaps(c, 1, NCaps(b)) else c)
  }

  function OpenAt(x: Ctx, pc: int): int { if x.env.sticky then pc else pc + 11 }

  /** Where the code of the loop begins, behind the search prefix, the opening of
      capture 0 and the reset. */
  function EntryAt(x: Ctx, pc: int, b: Node, min: nat): int {
    OpenAt(x, pc) + if ResetsFirst(b, min) then 5 else 2
  }

  function PlacesAt(x: Ctx, b: Node, min: nat, h: int): Places {
    var n := Len(Emit(x.env, b, false, 1));
    if min == 0 then Places(h, h + 5, h + 10 + n) else Places(h + n, h, h + n + 5)
  }

  /** The compiled pattern. */
  ghost predicate Compiled(go: Rel, x: Ctx, code: Code, pc: int, b: Node, min: nat, greedy: bool) {
    var z := OpenAt(x, pc);
    && (!x.env.sticky ==> code.fetch(pc) == Got(SplitGotoFirst(6)) && code.fetch(pc + 5) == Got(Any) && code.fetch(pc + 6) == Got(Goto(-11)))
    && code.fetch(z) == Got(SaveStart(0)) && (ResetsFirst(b, min) ==> code.fetch(z + 2) == Got(SaveReset(1, NCaps(b))))
    && min <= 1 && Loop(go, x, code, b, greedy, PlacesAt(x, b, min, EntryAt(x, pc, b, min)))
  }

  /** The code of the loop itself. */
  function LoopCode(atom: seq<Instr>, min: nat, greedy: bool): seq<Instr> {
    if min == 0 then StarCode(atom, greedy, false) else atom + [Split(!greedy, -(Len(atom) + 5))]
  }

  lemma LoopThenCode(e: Env, b: Node, min: nat, greedy: bool, d: Node)
    requires Unchecked(e, b, greedy) && min <= 1
    ensures Emit(e, LoopThen(b, min, greedy, d), false, 1) == ResetCode(b, min) + (LoopCode(Emit(e, b, false, 1), min, greedy) + Emit(e, d, false, 1 + NCaps(b)))
  {
    hide Emit, EmitQuant, LoopCode, NeedsCheck, UsesGreedyOp;
    var atom, tail := Emit(e, b, false, 1), Emit(e, d, false, 1 + NCaps(b));
    EmitLoop(e, b, min, greedy, d);
    LoopQuant(atom, b, min, greedy);
    assert ResetCode(b, min) + LoopCode(atom, min, greedy) + tail == ResetCode(b, min) + (LoopCode(atom, min, greedy) + tail);
  }

  lemma EmitLoop(e: Env, b: Node, min: nat, greedy: bool, d: Node)
    ensures Emit(e, LoopThen(b, min, greedy, d), false, 1)
      == EmitQuant(Emit(e, b, false, 1), 1, NCaps(b), min, INF, greedy) + Emit(e, d, false, 1 + NCaps(b))
  {
    hide EmitQuant, OneChar, EmitClass, Fold;
    var q := Quant(b, min, INF, greedy);
    assert NCaps(q) == NCaps(b);
    assert Emit(e, q, false, 1) == EmitQuant(Emit(e, b, false, 1), 1, NCaps(b), min, INF, greedy);
  }

  function ResetCode(b: Node, min: nat): seq<Instr> {
    if ResetsFirst(b, min) then [SaveReset(1, NCaps(b))] else []
  }

  lemma LoopQuant(atom: seq<Instr>, b: Node, min: nat, greedy: bool)
    requires !NeedsCheck(atom, greedy) && !UsesGreedyOp(atom, INF, greedy) && min <= 1
    ensures EmitQuant(atom, 1, NCaps(b), min, INF, greedy) == ResetCode(b, min) + LoopCode(atom, min, greedy)
  {
    hide StarCode, NeedsCheck, UsesGreedyOp, Len;
  }

  /** A continuation that matches nowhere fails. */
  lemma FailingCode(go: Rel, x: Ctx, code: Code, pc: int, d: Node, cc: nat)
    requires Runs(go, x, code) && WellFormed(d) && WellFormedCtx(x) && Supported(x, false, d, cc) && Fails(x, d, cc)
    requires At(code, pc, Emit(x.env, d, false, cc))
    ensures FailsAt(go, x, pc)
  {
    hide Results, Runs, At, Emit, Supported, Len;
    NodePlays(go, x, code, false, d, cc, pc);
    var z := pc + Len(Emit(x.env, d, false, cc));
    forall s: Res, stack, base {:trigger AtState(pc, s, stack, base)} | InText(x, s) ensures go(AtState(pc, s, stack, base), Fail(base)) {
      assert Plays(go, x, false, Once(d, cc), s, pc, stack, z, stack, base);
      DeliversNil(go, AtState(pc, s, stack, base), z, stack, base);
    }
  }

  lemma LoopPlaced(go: Rel, x: Ctx, code: Code, h: int, b: Node, min: nat, greedy: bool, tail: seq<Instr>)
    requires WellFormed(b) && WellFormedCtx(x) && Supported(x, false, b, 1) && min <= 1
    requires At(code, h, LoopCode(Emit(x.env, b, false, 1), min, greedy) + tail)
    requires FailsAt(go, x, PlacesAt(x, b, min, h).exit)
    ensures Loop(go, x, code, b, greedy, PlacesAt(x, b, min, h))
  {
    hide At, Len, Emit, StarCode, Supported, FailsAt;
    var c := Emit(x.env, b, false, 1);
    LoopLayout(code, h, c, min, greedy, tail);
  }

  lemma LoopLayout(code: Code, h: int, c: seq<Instr>, min: nat, greedy: bool, tail: seq<Instr>)
    requires At(code, h, LoopCode(c, min, greedy) + tail) && min <= 1
    ensures var n := Len(c);
      if min == 0 then
        && code.fetch(h) == Got(Split(greedy, n + 5)) && At(code, h + 5, c) && code.fetch(h + 5 + n) == Got(Goto(-(n + 10)))
        && At(code, h + 10 + n, tail)
      else At(code, h, c) && code.fetch(h + n) == Got(Split(!greedy, -(n + 5))) && At(code, h + n + 5, tail)
  {
    hide At, Len, StarCode;
    AtConcat(code, h, LoopCode(c, min, greedy), tail);
    if min == 0 {
      StarLayout(code, h, c, greedy, false);
    } else {
      AtConcat(code, h, c, [Split(!greedy, -(Len(c) + 5))]);
      AtLast(code, h + Len(c), Split(!greedy, -(Len(c) + 5)));
    }
  }

  lemma PatternCompiled(go: Rel, x: Ctx, code: Code, pc: int, b: Node, min: nat, greedy: bool, d: Node)
    requires Runs(go, x, code) && WellFormed(b) && WellFormedCtx(x) && Supported(x, false, b, 1) && Unchecked(x.env, b, greedy) && min <= 1
    requires WellFormed(d) && Supported(x, false, d, 1 + NCaps(b)) && Fails(x, d, 1 + NCaps(b))
    requires At(code, pc, Program(x.env, LoopThen(b, min, greedy, d)))
    ensures Compiled(go, x, code, pc, b, min, greedy)
  {
    hide At, Len, Emit, LoopCode, LoopThen, Supported, WellFormed, WellFormedCtx, Unchecked, Fails, Runs, Loop, Program;
    var z, h := OpenAt(x, pc), EntryAt(x, pc, b, min);
    PatternParts(x, code, pc, LoopThen(b, min, greedy, d));
    LoopThenCode(x.env, b, min, greedy, d);
    var atom, tail := Emit(x.env, b, false, 1), Emit(x.env, d, false, 1 + NCaps(b));
    EntryParts(code, z + 2, b, min, LoopCode(atom, min, greedy) + tail);
    LoopLayout(code, h, atom, min, greedy, tail);
    FailingCode(go, x, code, PlacesAt(x, b, min, h).exit, d, 1 + NCaps(b));
    LoopPlaced(go, x, code, h, b, min, greedy, tail);
  }

  lemma PatternParts(x: Ctx, code: Code, pc: int, r: Node)
    requires At(code, pc, Program(x.env, r))
    ensures code.fetch(OpenAt(x, pc)) == Got(SaveStart(0)) && At(code, OpenAt(x, pc) + 2, Emit(x.env, r, false, 1))
    ensures !x.env.sticky ==> code.fetch(pc) == Got(SplitGotoFirst(6)) && code.fetch(pc + 5) == Got(Any) && code.fetch(pc + 6) == Got(Goto(-11))
  {
    hide At, Len, Emit;
    var body := Emit(x.env, r, false, 1);
    var rest := [SaveStart(0)] + (body + [SaveEnd(0), Match]);
    assert Program(x.env, r) == Prefix(x.env.sticky) + rest;
    PrefixParts(x, code, pc, rest);
    AtCons(code, OpenAt(x, pc), SaveStart(0), body + [SaveEnd(0), Match]);
    AtConcat(code, OpenAt(x, pc) + 2, body, [SaveEnd(0), Match]);
  }

  lemma EntryParts(code: Code, pc: int, b: Node, min: nat, rest: seq<Instr>)
    requires At(code, pc, ResetCode(b, min) + rest)
    ensures ResetsFirst(b, min) ==> code.fetch(pc) == Got(SaveReset(1, NCaps(b)))
    ensures At(code, pc + if ResetsFirst(b, min) then 3 else 0, rest)
  {
    hide At, Len;
    if ResetsFirst(b, min) { AtCons(code, pc, SaveReset(1, NCaps(b)), rest); } else { assert [] + rest == rest; }
  }

  lemma PrefixParts(x: Ctx, code: Code, pc: int, rest: seq<Instr>)
    requires At(code, pc, Prefix(x.env.sticky) + rest)
    ensures At(code, OpenAt(x, pc), rest)
    ensures !x.env.sticky ==> code.fetch(pc) == Got(SplitGotoFirst(6)) && code.fetch(pc + 5) == Got(Any) && code.fetch(pc + 6) == Got(Goto(-11))
  {
    hide At, Len;
    if !x.env.sticky {
      assert Prefix(false) + rest == [SplitGotoFirst(6)] + ([Any] + ([Goto(-11)] + rest));
      AtCons(code, pc, SplitGotoFirst(6), [Any] + ([Goto(-11)] + rest));
      AtCons(code, pc + 5, Any, [Goto(-11)] + rest);
      AtCons(code, pc + 6, Goto(-11), rest);
    } else {
      assert [] + rest == rest;
    }
  }

  /** The loop entered where its code begins. */
  lemma EntryFails(go: Rel, x: Ctx, code: Code, b: Node, min: nat, greedy: bool, h: int, s: Res, stack: seq<int>, base: seq<Saved>)
    requires Runs(go, x, code) && Loop(go, x, code, b, greedy, PlacesAt(x, b, min, h)) && InText(x, s) && Stops(x, b, s)
    ensures go(AtState(h, s, stack, base), Fail(base))
  {
    hide Loop, Stops, Runs, Len, Emit;
    var l := PlacesAt(x, b, min, h);
    if min == 0 { StopsFails(go, x, code, b, greedy, l, s, stack, base); } else { AtomFails(go, x, code, b, greedy, l, s, stack, base); }
  }

  lemma EntryDiverges(x: Ctx, code: Code, b: Node, min: nat, greedy: bool, h: int, s: Res, stack: seq<int>, base: seq<Saved>)
    requires Loop(Reachable(x, code), x, code, b, greedy, PlacesAt(x, b, min, h)) && InText(x, s) && !Stops(x, b, s)
    ensures NeverHalts(x, code, AtState(h, s, stack, base))
  {
    hide Loop, Stops, NeverHalts, Reaches, Len, Emit;
    var l := PlacesAt(x, b, min, h);
    if min == 0 {
      LoopNeverHalts(x, code, b, greedy, l, s, stack, base);
    } else {
      ReachesRuns(x, code);
      var q, above := AtomComes(Reachable(x, code), x, code, b, greedy, l, s, stack, base);
      LoopNeverHalts(x, code, b, greedy, l, q, stack, above);
      NeverHaltsBefore(x, code, AtState(h, s, stack, base), AtState(l.head, q, stack, above));
    }
  }

  /** The loop stops at every start that the search tries. */
  ghost predicate AllStop(x: Ctx, b: Node, min: nat, caps: seq<int>, start: nat) {
    forall k: nat :: Tried(x, start, k) ==> Stops(x, b, Opened(b, min, k, caps))
  }

  /** An attempt at k, from where capture 0 opens to the loop. */
  lemma AttemptOpens(go: Rel, x: Ctx, code: Code, pc: int, b: Node, min: nat, greedy: bool, k: nat, caps: seq<int>, base: seq<Saved>)
    requires Runs(go, x, code) && Compiled(go, x, code, pc, b, min, greedy)
    ensures go(Run(OpenAt(x, pc), k, caps, [], base), AtState(EntryAt(x, pc, b, min), Opened(b, min, k, caps), [], base))
  {
    hide Loop, SetCap, ResetCaps;
    var z, s := OpenAt(x, pc), Run(OpenAt(x, pc), k, caps, [], base);
    var t := Run(z + 2, k, SetCap(caps, 0, k), [], base);
    assert Step(x, code, s) == t;
    if ResetsFirst(b, min) {
      assert Step(x, code, t) == AtState(z + 5, Opened(b, min, k, caps), [], base);
      Chain(go, s, t, Step(x, code, t));
    }
  }

  /** What the search saves before an attempt. */
  function Retry(x: Ctx, pc: int, k: nat, caps: seq<int>): seq<Saved> {
    if x.env.sticky then [] else [Saved(SplitState, pc + 5, k, caps, [], 0)]
  }

  lemma SearchOpens(go: Rel, x: Ctx, code: Code, pc: int, b: Node, min: nat, greedy: bool, k: nat, caps: seq<int>)
    requires Runs(go, x, code) && Compiled(go, x, code, pc, b, min, greedy)
    ensures go(Run(pc, k, caps, [], []), AtState(EntryAt(x, pc, b, min), Opened(b, min, k, caps), [], Retry(x, pc, k, caps)))
  {
    hide Loop, SetCap, Opened;
    var s, z, base := Run(pc, k, caps, [], []), OpenAt(x, pc), Retry(x, pc, k, caps);
    AttemptOpens(go, x, code, pc, b, min, greedy, k, caps, base);
    if !x.env.sticky {
      assert [] + base == base;
      assert Step(x, code, s) == Run(z, k, caps, [], base);
      Chain(go, s, Run(z, k, caps, [], base), AtState(EntryAt(x, pc, b, min), Opened(b, min, k, caps), [], base));
    }
  }

  /** After a failed attempt the search goes on with the next start, if any. */
  lemma SearchGoesOn(go: Rel, x: Ctx, code: Code, pc: int, b: Node, min: nat, greedy: bool, k: nat, caps: seq<int>)
    requires Runs(go, x, code) && Compiled(go, x, code, pc, b, min, greedy) && k <= |x.text|
    ensures go(Fail(Retry(x, pc, k, caps)), if !x.env.sticky && k < |x.text| then Run(pc, k + 1, caps, [], []) else NoMatch)
  {
    hide Loop;
    var base := Retry(x, pc, k, caps);
    var none := Step(x, code, Fail([]));
    if !x.env.sticky {
      assert Pop(base) == [];
      var s := Run(pc + 5, k, caps, [], []);
      assert Step(x, code, Fail(base)) == s;
      if k < |x.text| {
        assert Step(x, code, s) == Run(pc + 6, k + 1, caps, [], []);
        assert Step(x, code, Run(pc + 6, k + 1, caps, [], [])) == Run(pc, k + 1, caps, [], []);
        Chain(go, s, Run(pc + 6, k + 1, caps, [], []), Run(pc, k + 1, caps, [], []));
        Chain(go, Fail(base), s, Run(pc, k + 1, caps, [], []));
      } else {
        assert Step(x, code, s) == Fail([]);
        Chain(go, s, Fail([]), none);
        Chain(go, Fail(base), s, none);
      }
    }
  }

  /** A start at which the loop stops is left behind. */
  lemma SearchPasses(go: Rel, x: Ctx, code: Code, pc: int, b: Node, min: nat, greedy: bool, k: nat, caps: seq<int>)
    requires Runs(go, x, code) && Compiled(go, x, code, pc, b, min, greedy) && k <= |x.text| && Stops(x, b, Opened(b, min, k, caps))
    ensures go(Run(pc, k, caps, [], []), if !x.env.sticky && k < |x.text| then Run(pc, k + 1, caps, [], []) else NoMatch)
  {
    hide Loop, Stops, Retry, Runs, SetCap, ResetCaps;
    RunsReady(go, x, code);
    var s, h, base := Run(pc, k, caps, [], []), EntryAt(x, pc, b, min), Retry(x, pc, k, caps);
    var next := if !x.env.sticky && k < |x.text| then Run(pc, k + 1, caps, [], []) else NoMatch;
    SearchOpens(go, x, code, pc, b, min, greedy, k, caps);
    EntryFails(go, x, code, b, min, greedy, h, Opened(b, min, k, caps), [], base);
    SearchGoesOn(go, x, code, pc, b, min, greedy, k, caps);
    Chain(go, s, AtState(h, Opened(b, min, k, caps), [], base), Fail(base));
    Chain(go, s, Fail(base), next);
  }

  lemma {:induction false} SearchEnds(go: Rel, x: Ctx, code: Code, pc: int, b: Node, min: nat, greedy: bool, k: nat, caps: seq<int>)
    requires Runs(go, x, code) && Compiled(go, x, code, pc, b, min, greedy) && k <= |x.text| && AllStop(x, b, min, caps, k)
    ensures go(Run(pc, k, caps, [], []), NoMatch)
    decreases |x.text| - k
  {
    hide Compiled, Stops, Runs, Opened;
    RunsReady(go, x, code);
    assert Tried(x, k, k);
    SearchPasses(go, x, code, pc, b, min, greedy, k, caps);
    if !x.env.sticky && k < |x.text| {
      assert forall j: nat :: Tried(x, k + 1, j) ==> Tried(x, k, j);
      SearchEnds(go, x, code, pc, b, min, greedy, k + 1, caps);
      Chain(go, Run(pc, k, caps, [], []), Run(pc, k + 1, caps, [], []), NoMatch);
    }
  }

  lemma {:induction false} SearchDiverges(x: Ctx, code: Code, pc: int, b: Node, min: nat, greedy: bool, k: nat, caps: seq<int>)
    requires Compiled(Reachable(x, code), x, code, pc, b, min, greedy) && k <= |x.text| && !AllStop(x, b, min, caps, k)
    ensures NeverHalts(x, code, Run(pc, k, caps, [], []))
    decreases |x.text| - k
  {
    hide Loop, Stops, NeverHalts, Reaches, SetCap, ResetCaps;
    var go := Reachable(x, code);
    ReachesRuns(x, code);
    if Stops(x, b, Opened(b, min, k, caps)) {
      var bad: nat :| Tried(x, k, bad) && !Stops(x, b, Opened(b, min, bad, caps));
      assert Tried(x, k + 1, bad);
      SearchPasses(go, x, code, pc, b, min, greedy, k, caps);
      SearchDiverges(x, code, pc, b, min, greedy, k + 1, caps);
      NeverHaltsBefore(x, code, Run(pc, k, caps, [], []), Run(pc, k + 1, caps, [], []));
    } else {
      var h, base := EntryAt(x, pc, b, min), Retry(x, pc, k, caps);
      SearchOpens(go, x, code, pc, b, min, greedy, k, caps);
      EntryDiverges(x, code, b, min, greedy, h, Opened(b, min, k, caps), [], base);
      NeverHaltsBefore(x, code, Run(pc, k, caps, [], []), AtState(h, Opened(b, min, k, caps), [], base));
    }
  }

  lemma OpenedInside(x: Ctx, b: Node, min: nat, k: nat, caps: seq<int>)
    requires Inside(x, |caps|, Res(k, caps))
    ensures Inside(x, |caps|, Opened(b, min, k, caps)) && |Opened(b, min, k, caps).caps| == |caps|
  {
  }

  /** The compiled unchecked loop before a pattern that matches nowhere in the
      subject ends, and then without a match, exactly when from no start that is
      tried the loop can come back to a position with the same captures. */
  lemma UncheckedLoopEnds(x: Ctx, bytes: seq<byte>, pc: int, b: Node, min: nat, greedy: bool, d: Node, start: nat, caps: seq<int>)
    requires WellFormed(b) && WellFormedCtx(x) && Supported(x, false, b, 1) && Unchecked(x.env, b, greedy) && min <= 1
    requires WellFormed(d) && Supported(x, false, d, 1 + NCaps(b)) && Fails(x, d, 1 + NCaps(b))
    requires start <= |x.text| && Inside(x, |caps|, Res(start, caps))
    requires AllEncodable(Program(x.env, LoopThen(b, min, greedy, d))) && Lies(bytes, pc, Encode(Program(x.env, LoopThen(b, min, greedy, d))))
    ensures var s := Run(pc, start, caps, [], []);
      var ends := forall k: nat :: Tried(x, start, k) ==> !Recurs(x, b, Opened(b, min, k, caps));
      && (ends ==> exists n: nat :: Steps(x, Load(bytes), s, n).NoMatch?)
      && (!ends ==> forall n: nat :: !Halted(Steps(x, Load(bytes), s, n)))
  {
    hide Encode, Lies, Program, Emit, Compiled, Stops, Recurs, Opened, Runs, Steps, Supported, WellFormed, WellFormedCtx, LoopThen, Unchecked, Fails;
    var code, s := Load(bytes), Run(pc, start, caps, [], []);
    var go := Reachable(x, code);
    ReachesRuns(x, code);
    AtStored(bytes, pc, Program(x.env, LoopThen(b, min, greedy, d)));
    PatternCompiled(go, x, code, pc, b, min, greedy, d);
    forall k: nat | Tried(x, start, k) ensures Stops(x, b, Opened(b, min, k, caps)) <==> !Recurs(x, b, Opened(b, min, k, caps)) {
      assert Inside(x, |caps|, Res(k, caps));
      OpenedInside(x, b, min, k, caps);
      StopsIff(x, b, Opened(b, min, k, caps));
    }
    if AllStop(x, b, min, caps, start) {
      SearchEnds(go, x, code, pc, b, min, greedy, start, caps);
      assert Reaches(x, code, s, NoMatch);
    } else {
      SearchDiverges(x, code, pc, b, min, greedy, start, caps);
      assert NeverHalts(x, code, s);
    }
  }

  // Witnesses

  /** (?:)*? and then a character that is missing: the machine never halts. */
  lemma EmptyLoopDiverges(x: Ctx, bytes: seq<byte>, pc: int, c: int, start: nat, caps: seq<int>)
    requires WellFormedCtx(x) && start <= |x.text| && Inside(x, |caps|, Res(start, caps)) && 0 <= c <= 0x10ffff
    requires forall i :: 0 <= i < |x.text| ==> Fold(x.env, x.text[i]) != Fold(x.env, c)
    requires AllEncodable(Program(x.env, LoopThen(Empty, 0, false, Chr(c)))) && Lies(bytes, pc, Encode(Program(x.env, LoopThen(Empty, 0, false, Chr(c)))))
    ensures forall n: nat :: !Halted(Steps(x, Load(bytes), Run(pc, start, caps, [], []), n))
  {
    hide Encode, Lies, Program, Steps, Recurs, Opened, Fails;
    MissingFails(x, c, 1);
    UncheckedLoopEnds(x, bytes, pc, Empty, 0, false, Chr(c), start, caps);
    EmptyRecurs(x, Opened(Empty, 0, start, caps));
    assert Tried(x, start, start);
  }

  lemma EmptyRecurs(x: Ctx, s: Res)
    ensures Recurs(x, Empty, s)
  {
    TestResults(x, false, Empty, 1, s);
    OneRound(x, Empty, s, s);
    assert Rounds(x, Empty, s, s, 0);
  }

  /** ()\1, an atom that refers to its own capture. */
  const OWN: Node := Cat(Group(Empty), BackRef(1))

  /** (?:()\1)* and then a character: the analysis answers -1, so that this
      greedy loop has no check either, and the machine never halts. */
  lemma OwnCaptureDiverges(x: Ctx, bytes: seq<byte>, pc: int, c: int, start: nat, caps: seq<int>)
    requires WellFormedCtx(x) && start <= |x.text| && Inside(x, |caps|, Res(start, caps)) && |caps| >= 4 && 0 <= c <= 0x10ffff
    requires forall i :: 0 <= i < |x.text| ==> Fold(x.env, x.text[i]) != Fold(x.env, c)
    requires AllEncodable(Program(x.env, LoopThen(OWN, 0, true, Chr(c)))) && Lies(bytes, pc, Encode(Program(x.env, LoopThen(OWN, 0, true, Chr(c)))))
    ensures CheckAdvance(Emit(x.env, OWN, false, 1)) == -1
    ensures forall n: nat :: !Halted(Steps(x, Load(bytes), Run(pc, start, caps, [], []), n))
  {
    hide Encode, Lies, Program, Steps, Recurs, Fails;
    OwnCode(x.env);
    MissingFails(x, c, 1 + NCaps(OWN));
    UncheckedLoopEnds(x, bytes, pc, OWN, 0, true, Chr(c), start, caps);
    OpenedInside(x, OWN, 0, start, caps);
    OwnRecurs(x, Opened(OWN, 0, start, caps));
    assert Tried(x, start, start);
  }

  lemma OwnCode(e: Env)
    ensures CheckAdvance(Emit(e, OWN, false, 1)) == -1 && Unchecked(e, OWN, true)
  {
    var c := Emit(e, OWN, false, 1);
    assert Emit(e, Empty, false, 2) == [];
    assert Emit(e, Group(Empty), false, 1) == [SaveStart(1)] + [] + [SaveEnd(1)];
    assert NCaps(Group(Empty)) == 1 && Emit(e, BackRef(1), false, 2) == [BackReference(1)];
    assert c == [SaveStart(1), SaveEnd(1), BackReference(1)];
    assert AnyWrites(c, 1) by { assert Writes(c[0], 1); }
    assert AnyRefers(c, 1) by { assert Refers(c[2], 1); }
    assert c[1..][0] == SaveEnd(1);
    assert SimpleCount(c) == -1;
  }

  lemma OwnRecurs(x: Ctx, s: Res)
    requires |s.caps| >= 4
    ensures Recurs(x, OWN, s)
  {
    var q := s.(caps := s.caps[2 := s.pos][3 := s.pos]);
    OwnMatch(x, s);
    OwnMatch(x, q);
    assert q.caps[2 := s.pos][3 := s.pos] == q.caps;
    OneRound(x, OWN, s, q);
    OneRound(x, OWN, q, q);
  }

  lemma OwnMatch(x: Ctx, s: Res)
    requires |s.caps| >= 4
    ensures s.(caps := s.caps[2 := s.pos][3 := s.pos]) in At1(x, OWN, s)
  {
    hide Results, All;
    var q, s' := s.(caps := s.caps[2 := s.pos][3 := s.pos]), s.(caps := s.caps[2 := s.pos]);
    GroupResults(x, false, Empty, 1, s);
    TestResults(x, false, Empty, 2, s');
    CatResults(x, false, Group(Empty), BackRef(1), 1, s);
    BackRefResults(x, false, 1, 2, q);
    var rs := Results(x, false, Once(Group(Empty), 1), s);
    assert rs == [q];
    AllOne(x, false, Once(BackRef(1), 2), q);
  }
}
