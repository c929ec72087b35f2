/** Soundness of re_check_advance: when it answers 1, every match of the atom
    moves in the direction of matching. */
module RegexAdvance {
  import opened RegexSyntax
  import opened RegexSemantics
  import opened RegexEquations
  import opened Bytecode
  import opened RegexEmit
  import opened RegexProgress
  import opened RegexCorrectness

  lemma {:induction false} AllMember(x: Ctx, back: bool, p: Plan, rs: seq<Res>, q: Res) returns (m: Res)
    requires q in All(x, back, p, rs)
    ensures m in rs && q in Results(x, back, p, m)
    decreases |rs|
  {
    hide Results;
    assert rs != [];
    if q in Results(x, back, p, rs[0]) {
      m := rs[0];
    } else {
      m := AllMember(x, back, p, rs[1..], q);
    }
  }

  /** Two steps of which one moves and the other does not move back. */
  lemma AdvancesThen(x: Ctx, back: bool, p: Plan, q: Plan, s: Res, e: Res)
    requires InText(x, s) && e in All(x, back, q, Results(x, back, p, s))
    requires (forall m :: m in Results(x, back, p, s) ==> Room(x, back, m.pos) < Room(x, back, s.pos))
          || (forall m: Res, n :: InText(x, m) && n in Results(x, back, q, m) ==> Room(x, back, n.pos) < Room(x, back, m.pos))
    ensures Room(x, back, e.pos) < Room(x, back, s.pos)
  {
    hide Results, All;
    var m := AllMember(x, back, q, Results(x, back, p, s), e);
    ResultsLater(x, back, p, s);
    assert Later(x, back, s, m);
    ResultsLater(x, back, q, m);
    assert Later(x, back, m, e);
  }

  lemma {:induction false} ReadsFirstConcat(a: seq<Instr>, b: seq<Instr>)
    requires ReadsFirst(a + b)
    ensures ReadsFirst(a) || ReadsFirst(b)
    decreases |a|
  {
    if a == [] {
      assert a + b == b;
    } else {
      assert (a + b)[0] == a[0] && (a + b)[1..] == a[1..] + b;
      if !IsCharOp(a[0]) { ReadsFirstConcat(a[1..], b); }
    }
  }

  lemma ReadsFirstCons(i: Instr, c: seq<Instr>)
    requires !IsCharOp(i) && ReadsFirst([i] + c)
    ensures IsNeutralOp(i) && ReadsFirst(c)
  {
    assert ([i] + c)[1..] == c;
  }

  lemma NotReadsFirst(c: seq<Instr>)
    requires c == [] || (!IsCharOp(c[0]) && (!IsNeutralOp(c[0]) || |c| == 1 || (!IsCharOp(c[1]) && !IsNeutralOp(c[1]))))
    ensures !ReadsFirst(c)
  {
    if |c| > 1 { assert c[1..][0] == c[1]; }
  }

  /** A quantifier that reads first has a mandatory atom that reads first. */
  lemma QuantReadsFirst(c: seq<Instr>, first: int, last: int, min: int, max: int, greedy: bool)
    requires 0 <= min <= max <= INF && ReadsFirst(EmitQuant(c, first, last, min, max, greedy))
    ensures min >= 1 && ReadsFirst(c)
  {
    hide ReadsFirst, CheckAdvance, SimpleCount, Len;
    EmitQuantIs(c, first, last, min, max, greedy);
    var core := RepCode(c, min, max, greedy);
    if Resets(c, first, last, min, max, greedy) {
      ReadsFirstCons(SaveReset(first, last), core);
    } else {
      assert [] + core == core;
    }
    if UsesGreedyOp(c, max, greedy) || min == 0 {
      NotReadsFirst(core);
    } else if min == 1 && max == INF && !NeedsCheck(c, greedy) {
      var i := Split(!greedy, -(Len(c) + 5));
      NotReadsFirst([i]);
      ReadsFirstConcat(c, [i]);
    } else {
      MandatoryReadsFirst(c, min, max, greedy);
    }
  }

  lemma MandatoryReadsFirst(c: seq<Instr>, min: int, max: int, greedy: bool)
    requires 1 <= min <= max <= INF && ReadsFirst(RepCode(c, min, max, greedy))
    requires !UsesGreedyOp(c, max, greedy) && !(min == 1 && max == INF && !NeedsCheck(c, greedy))
    ensures ReadsFirst(c)
  {
    hide ReadsFirst, CheckAdvance, SimpleCount, Len;
    var first := ExactCode(c, min);
    var rest := if max == INF then StarCode(c, greedy, NeedsCheck(c, greedy)) else if max > min then UpToCode(c, greedy, max - min) else [];
    assert first + [] == first;
    assert RepCode(c, min, max, greedy) == first + rest;
    NotReadsFirst(rest);
    ReadsFirstConcat(first, rest);
    if min > 1 {
      var tail := [Loop(-(Len(c) + 5)), Drop];
      assert first == [PushI32(min)] + (c + tail);
      ReadsFirstCons(PushI32(min), c + tail);
      NotReadsFirst(tail);
      ReadsFirstConcat(c, tail);
    }
  }

  lemma FrameReadsFirst(i: Instr, body: seq<Instr>, j: Instr)
    requires ReadsFirst([i] + body + [j]) && !IsCharOp(i) && !IsCharOp(j)
    ensures ReadsFirst(body)
  {
    hide ReadsFirst;
    assert [i] + body + [j] == [i] + (body + [j]);
    ReadsFirstCons(i, body + [j]);
    NotReadsFirst([j]);
    ReadsFirstConcat(body, [j]);
  }

  /** Whether a pattern has a branch that reads no character. */
  predicate MayBeEmpty(r: Node) {
    match r
    case Chr(_) => false
    case AnyChar => false
    case Class(_) => false
    case Cat(a, b) => MayBeEmpty(a) && MayBeEmpty(b)
    case Alt(a, b) => MayBeEmpty(a) || MayBeEmpty(b)
    case Group(b) => MayBeEmpty(b)
    case Quant(b, min, _, _) => min == 0 || MayBeEmpty(b)
    case _ => true
  }

  /** A pattern without such a branch always moves. */
  lemma {:induction false} NeverEmptyAdvances(x: Ctx, back: bool, r: Node, cc: nat)
    requires WellFormed(r) && !MayBeEmpty(r)
    ensures Advances(x, back, r, cc)
    decreases r
  {
    hide Results, Advances;
    match r
    case Cat(a, b) =>
      if MayBeEmpty(a) { NeverEmptyAdvances(x, back, b, cc + NCaps(a)); } else { NeverEmptyAdvances(x, back, a, cc); }
      CatAdvances(x, back, a, b, cc);
    case Alt(a, b) =>
      NeverEmptyAdvances(x, back, a, cc);
      NeverEmptyAdvances(x, back, b, cc + NCaps(a));
      AltAdvances(x, back, a, b, cc);
    case Group(b) =>
      NeverEmptyAdvances(x, back, b, cc + 1);
      GroupAdvances(x, back, b, cc);
    case Quant(b, min, max, greedy) =>
      NeverEmptyAdvances(x, back, b, cc);
      QuantAdvances(x, back, b, min, max, greedy, cc);
    case Chr(_) => CharAdvances(x, back, r, cc);
    case AnyChar => CharAdvances(x, back, r, cc);
    case Class(_) => CharAdvances(x, back, r, cc);
  }

  /** Code whose first deciding opcode reads a character has no branch without
      one. */
  lemma {:induction false} ReadsFirstNeverEmpty(e: Env, back: bool, r: Node, cc: nat)
    requires WellFormed(r)
    ensures ReadsFirst(Emit(e, r, back, cc)) ==> !MayBeEmpty(r)
    decreases r
  {
    hide ReadsFirst, EmitQuant, EmitClass;
    var c := Emit(e, r, back, cc);
    match r
    case Chr(_) =>
    case AnyChar =>
    case Class(_) =>
    case Cat(a, b) =>
      ReadsFirstNeverEmpty(e, back, a, cc);
      ReadsFirstNeverEmpty(e, back, b, cc + NCaps(a));
      if ReadsFirst(c) { CatReadsFirst(Emit(e, a, back, cc), Emit(e, b, back, cc + NCaps(a)), back); }
    case Group(b) =>
      ReadsFirstNeverEmpty(e, back, b, cc + 1);
      if ReadsFirst(c) { FrameReadsFirst(c[0], Emit(e, b, back, cc + 1), c[|c| - 1]); }
    case Quant(b, min, max, greedy) =>
      ReadsFirstNeverEmpty(e, back, b, cc);
      if ReadsFirst(c) { QuantReadsFirst(Emit(e, b, back, cc), cc, cc + NCaps(b) - 1, min, max, greedy); }
    case _ => NotReadsFirst(c);
  }

  lemma CatReadsFirst(ca: seq<Instr>, cb: seq<Instr>, back: bool)
    requires ReadsFirst(if back then cb + ca else ca + cb)
    ensures ReadsFirst(ca) || ReadsFirst(cb)
  {
    hide ReadsFirst;
    if back { ReadsFirstConcat(cb, ca); } else { ReadsFirstConcat(ca, cb); }
  }

  lemma AltAdvances(x: Ctx, back: bool, a: Node, b: Node, cc: nat)
    requires Advances(x, back, a, cc) && Advances(x, back, b, cc + NCaps(a))
    ensures Advances(x, back, Alt(a, b), cc)
  {
    hide Results, Room;
    forall s: Res, q | InText(x, s) && q in Results(x, back, Once(Alt(a, b), cc), s)
      ensures Room(x, back, q.pos) < Room(x, back, s.pos)
    {
      AltResults(x, back, a, b, cc, s);
    }
  }

  lemma CharAdvances(x: Ctx, back: bool, r: Node, cc: nat)
    requires r.Chr? || r.AnyChar? || r.Class?
    ensures Advances(x, back, r, cc)
  {
    forall s: Res, q | InText(x, s) && q in Results(x, back, Once(r, cc), s)
      ensures Room(x, back, q.pos) < Room(x, back, s.pos)
    {
      CharResults(x, back, r, cc, s);
    }
  }

  lemma CatAdvances(x: Ctx, back: bool, a: Node, b: Node, cc: nat)
    requires Advances(x, back, a, cc) || Advances(x, back, b, cc + NCaps(a))
    ensures Advances(x, back, Cat(a, b), cc)
  {
    hide Results, All;
    forall s: Res, q | InText(x, s) && q in Results(x, back, Once(Cat(a, b), cc), s)
      ensures Room(x, back, q.pos) < Room(x, back, s.pos)
    {
      CatResults(x, back, a, b, cc, s);
      var f, g := if back then Once(b, cc + NCaps(a)) else Once(a, cc), if back then Once(a, cc) else Once(b, cc + NCaps(a));
      AdvancesThen(x, back, f, g, s, q);
    }
  }

  lemma GroupAdvances(x: Ctx, back: bool, b: Node, cc: nat)
    requires Advances(x, back, b, cc + 1)
    ensures Advances(x, back, Group(b), cc)
  {
    hide Results, Stamp, SetCap, Room;
    forall s: Res, q | InText(x, s) && q in Results(x, back, Once(Group(b), cc), s)
      ensures Room(x, back, q.pos) < Room(x, back, s.pos)
    {
      GroupResults(x, back, b, cc, s);
      var first := if back then 2 * cc + 1 else 2 * cc;
      var s' := s.(caps := SetCap(s.caps, first, s.pos));
      var inner := Results(x, back, Once(b, cc + 1), s');
      var outer := Stamp(inner, 4 * cc + 1 - first);
      var k :| 0 <= k < |outer| && outer[k] == q;
      assert inner[k] in inner && InText(x, s');
    }
  }

  lemma QuantAdvances(x: Ctx, back: bool, b: Node, min: int, max: int, greedy: bool, cc: nat)
    requires 1 <= min <= max && Advances(x, back, b, cc)
    ensures Advances(x, back, Quant(b, min, max, greedy), cc)
  {
    hide All;
    forall s: Res, q | InText(x, s) && q in Results(x, back, Once(Quant(b, min, max, greedy), cc), s)
      ensures Room(x, back, q.pos) < Room(x, back, s.pos)
    {
      QuantResults(x, back, b, min, max, greedy, cc, s);
      var opt := if max == INF then 0 else max - min;
      RepUnfold(x, back, b, cc, min, opt, max == INF, greedy, s);
      AdvancesThen(x, back, Once(b, cc), Rep(b, cc, min - 1, opt, max == INF, greedy), s, q);
    }
  }

  /** re_check_advance is sound. */
  lemma CheckAdvanceSound(x: Ctx, back: bool, r: Node, cc: nat)
    requires WellFormed(r) && CheckAdvance(Emit(x.env, r, back, cc)) == 1
    ensures forall s: Res, q :: InText(x, s) && q in Results(x, back, Once(r, cc), s) ==>
      if back then q.pos < s.pos else s.pos < q.pos
  {
    hide Results;
    ReadsFirstNeverEmpty(x.env, back, r, cc);
    NeverEmptyAdvances(x, back, r, cc);
    forall s: Res, q | InText(x, s) && q in Results(x, back, Once(r, cc), s)
      ensures if back then q.pos < s.pos else s.pos < q.pos
    {
      ResultsLater(x, back, Once(r, cc), s);
      assert Later(x, back, s, q);
    }
  }

  /** A condition that can be checked on the pattern: an unbounded loop over an
      atom that may be empty is greedy, and the analysis answers 0 for it, so
      that the loop carries the zero-advance check. */
  predicate Checked(e: Env, back: bool, r: Node, cc: nat)
    decreases r
  {
    match r
    case Cat(a, b) => Checked(e, back, a, cc) && Checked(e, back, b, cc + NCaps(a))
    case Alt(a, b) => Checked(e, back, a, cc) && Checked(e, back, b, cc + NCaps(a))
    case Group(b) => Checked(e, back, b, cc + 1)
    case Look(_, behind, b) => Checked(e, behind, b, cc)
    case Quant(b, min, max, greedy) =>
      Checked(e, back, b, cc)
      && (max == INF && MayBeEmpty(b) ==> NeedsCheck(Emit(e, b, back, cc), greedy))
    case _ => true
  }

  lemma {:induction false} CheckedSupported(x: Ctx, back: bool, r: Node, cc: nat)
    requires WellFormed(r) && Checked(x.env, back, r, cc)
    ensures Supported(x, back, r, cc)
    decreases r
  {
    match r
    case Cat(a, b) => CheckedSupported(x, back, a, cc); CheckedSupported(x, back, b, cc + NCaps(a));
    case Alt(a, b) => CheckedSupported(x, back, a, cc); CheckedSupported(x, back, b, cc + NCaps(a));
    case Group(b) => CheckedSupported(x, back, b, cc + 1);
    case Look(_, behind, b) => CheckedSupported(x, behind, b, cc);
    case Quant(b, min, max, greedy) =>
      CheckedSupported(x, back, b, cc);
      if max == INF && !MayBeEmpty(b) { NeverEmptyAdvances(x, back, b, cc); }
    case _ =>
  }

  /** Greedy loops over atoms that refer to no capture of their own are always
      admitted, and so are all loops over atoms that cannot be empty. */
  lemma {:induction false} AdmittedChecked(e: Env, back: bool, r: Node, cc: nat)
    requires WellFormed(r) && Admitted(e, back, r, cc)
    ensures Checked(e, back, r, cc)
    decreases r
  {
    match r
    case Cat(a, b) => AdmittedChecked(e, back, a, cc); AdmittedChecked(e, back, b, cc + NCaps(a));
    case Alt(a, b) => AdmittedChecked(e, back, a, cc); AdmittedChecked(e, back, b, cc + NCaps(a));
    case Group(b) => AdmittedChecked(e, back, b, cc + 1);
    case Look(_, behind, b) => AdmittedChecked(e, behind, b, cc);
    case Quant(b, min, max, greedy) =>
      AdmittedChecked(e, back, b, cc);
      if max == INF && MayBeEmpty(b) && CheckAdvance(Emit(e, b, back, cc)) == 1 { ReadsFirstNeverEmpty(e, back, b, cc); }
    case _ =>
  }

  /** The same condition by the answers of re_check_advance: 0 or 1 for greedy
      unbounded loops, 1 for lazy ones, or an atom that cannot be empty. */
  predicate Admitted(e: Env, back: bool, r: Node, cc: nat)
    decreases r
  {
    match r
    case Cat(a, b) => Admitted(e, back, a, cc) && Admitted(e, back, b, cc + NCaps(a))
    case Alt(a, b) => Admitted(e, back, a, cc) && Admitted(e, back, b, cc + NCaps(a))
    case Group(b) => Admitted(e, back, b, cc + 1)
    case Look(_, behind, b) => Admitted(e, behind, b, cc)
    case Quant(b, min, max, greedy) =>
      Admitted(e, back, b, cc)
      && (max == INF ==> !MayBeEmpty(b) || CheckAdvance(Emit(e, b, back, cc)) >= if greedy then 0 else 1)
    case _ => true
  }
}
