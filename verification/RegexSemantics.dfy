/** What a pattern means: the list of its matches from a given position, in
    order of priority. A match is an end position with the captures at that
    point. The list is the reference for the compiled code; it is a variant of
    the matchers of section 21.2.2 of ECMA-262 (11th edition) in which an
    unbounded loop is left, not failed, by an iteration that does not move, and
    in which captures are reset once before an optional loop. */
module RegexSemantics {
  import opened RegexSyntax

  datatype Res = Res(pos: nat, caps: seq<int>)

  /** A step of matching. `Once` matches a pattern; `Rep` matches `min` more
      copies of it and then `opt` (or any number of) optional ones; `Again`
      continues an unbounded loop after an iteration that began with `room`
      characters left. The captures of `r` are numbered from `cc`. */
  datatype Plan =
    | Once(r: Node, cc: nat)
    | Rep(r: Node, cc: nat, min: nat, opt: nat, unbounded: bool, greedy: bool)
    | Again(r: Node, cc: nat, greedy: bool, room: nat)

  /** Characters left in the direction of matching. */
  function Room(x: Ctx, back: bool, pos: nat): nat {
    if pos > |x.text| then 0 else if back then pos else |x.text| - pos
  }

  function SetCap(caps: seq<int>, i: nat, v: int): seq<int> {
    if i < |caps| then caps[i := v] else caps
  }

  /** The slots 2 * first .. 2 * last + 1 become null (-1). */
  function ResetCaps(caps: seq<int>, first: nat, last: int): (r: seq<int>) {
    seq(|caps|, k requires 0 <= k < |caps| => if 2 * first <= k <= 2 * last + 1 then -1 else caps[k])
  }

  /** Whether a one-character pattern accepts a character. */
  ghost predicate Accepts(e: Env, r: Node, ch: int) {
    match r
    case Chr(c) => Fold(e, ch) == Fold(e, c)
    case AnyChar => e.dotall || !IsLineTerminator(ch)
    case Class(points) => InClass(points, Fold(e, ch))
    case _ => false
  }

  ghost function MatchChar(x: Ctx, back: bool, r: Node, s: Res): seq<Res> {
    if back then
      if 0 < s.pos <= |x.text| && Accepts(x.env, r, x.text[s.pos - 1]) then [s.(pos := s.pos - 1)] else []
    else
      if s.pos < |x.text| && Accepts(x.env, r, x.text[s.pos]) then [s.(pos := s.pos + 1)] else []
  }

  ghost predicate SameFolded(x: Ctx, a: nat, b: nat, n: nat)
    requires a + n <= |x.text| && b + n <= |x.text|
  {
    forall k :: a <= k < a + n ==> Fold(x.env, x.text[k]) == Fold(x.env, x.text[k - a + b])
  }

  /** A back reference matches a copy of the captured text, and the empty
      string when there is no captured text. */
  ghost function MatchBackRef(x: Ctx, back: bool, n: int, s: Res): seq<Res> {
    if n < 0 || 2 * n + 1 >= |s.caps| then []
    else
      var from, to := s.caps[2 * n], s.caps[2 * n + 1];
      if from < 0 || to < 0 || to <= from then [s]
      else if to > |x.text| then []
      else if back then
        if s.pos <= |x.text| && to - from <= s.pos && SameFolded(x, from, s.pos - (to - from), to - from)
        then [s.(pos := s.pos - (to - from))] else []
      else
        if s.pos + (to - from) <= |x.text| && SameFolded(x, from, s.pos, to - from)
        then [s.(pos := s.pos + (to - from))] else []
  }

  function If(c: bool, s: Res): seq<Res> { if c then [s] else [] }

  ghost function Rank(p: Plan): nat {
    match p
    case Once(_, _) => 0
    case Rep(_, _, _, _, _, _) => 1
    case Again(_, _, _, _) => 1
  }

  ghost function Count(p: Plan): nat {
    match p
    case Rep(_, _, min, opt, unbounded, _) => min + (if unbounded then 0 else opt)
    case _ => 0
  }

  ghost function Fuel(x: Ctx, back: bool, p: Plan, pos: nat): nat {
    match p
    case Once(_, _) => 0
    case Rep(_, _, _, _, _, _) => 2 * Room(x, back, pos) + 1
    case Again(_, _, _, room) => 2 * room
  }

  ghost function MaxFuel(x: Ctx, p: Plan): nat {
    match p
    case Once(_, _) => 0
    case Rep(_, _, _, _, _, _) => 2 * |x.text| + 1
    case Again(_, _, _, room) => 2 * room
  }

  /** The matches of a plan from `s`, most preferred first. */
  ghost function Results(x: Ctx, back: bool, p: Plan, s: Res): seq<Res>
    decreases p.r, Rank(p), Count(p), Fuel(x, back, p, s.pos), 0
  {
    match p
    case Once(r, cc) => NodeResults(x, back, r, cc, s)
    case Rep(r, cc, min, opt, unbounded, greedy) =>
      if min > 0 then
        All(x, back, Rep(r, cc, min - 1, opt, unbounded, greedy), Results(x, back, Once(r, cc), s))
      else if !unbounded && opt == 0 then [s]
      else
        var next := if unbounded then Again(r, cc, greedy, Room(x, back, s.pos))
                    else Rep(r, cc, 0, opt - 1, false, greedy);
        var more := All(x, back, next, Results(x, back, Once(r, cc), s));
        if greedy then more + [s] else [s] + more
    case Again(r, cc, greedy, room) =>
      if Room(x, back, s.pos) < room then Results(x, back, Rep(r, cc, 0, 0, true, greedy), s) else [s]
  }

  ghost function NodeResults(x: Ctx, back: bool, r: Node, cc: nat, s: Res): seq<Res>
    decreases r, 0, 0, 0, -1
  {
    match r
    case Empty => [s]
    case Chr(_) => MatchChar(x, back, r, s)
    case AnyChar => MatchChar(x, back, r, s)
    case Class(_) => MatchChar(x, back, r, s)
    case Bol => If(AtLineStart(x, s.pos), s)
    case Eol => If(AtLineEnd(x, s.pos), s)
    case WordB(negated) => If(AtWordBoundary(x, s.pos) != negated, s)
    case BackRef(n) => MatchBackRef(x, back, n, s)
    case Cat(a, b) =>
      if back then All(x, back, Once(a, cc), Results(x, back, Once(b, cc + NCaps(a)), s))
      else All(x, back, Once(b, cc + NCaps(a)), Results(x, back, Once(a, cc), s))
    case Alt(a, b) =>
      Results(x, back, Once(a, cc), s) + Results(x, back, Once(b, cc + NCaps(a)), s)
    case Group(b) =>
      var first := if back then 2 * cc + 1 else 2 * cc;
      Stamp(Results(x, back, Once(b, cc + 1), s.(caps := SetCap(s.caps, first, s.pos))), 4 * cc + 1 - first)
    case Look(negative, behind, b) =>
      var inner := Results(x, behind, Once(b, cc), s);
      if negative then If(inner == [], s)
      else if inner == [] then []
      else [s.(caps := inner[0].caps)]
    case Quant(b, min, max, greedy) =>
      var s0 := if min == 0 && NCaps(b) > 0 then s.(caps := ResetCaps(s.caps, cc, cc + NCaps(b) - 1)) else s;
      if min < 0 || max < min then []
      else Results(x, back, Rep(b, cc, min, if max == INF then 0 else max - min, max == INF, greedy), s0)
  }

  /** All matches of a plan from each of a list of states, in order. */
  ghost function All(x: Ctx, back: bool, p: Plan, rs: seq<Res>): seq<Res>
    decreases p.r, Rank(p), Count(p), MaxFuel(x, p), |rs| + 1
  {
    if rs == [] then [] else
      assert p.Rep? ==> Room(x, back, rs[0].pos) <= |x.text|;
      Results(x, back, p, rs[0]) + All(x, back, p, rs[1..])
  }

  /** Every end position is recorded in one capture slot. */
  function Stamp(rs: seq<Res>, slot: nat): (r: seq<Res>)
    ensures |r| == |rs|
    ensures forall i :: 0 <= i < |rs| ==> r[i] == Res(rs[i].pos, SetCap(rs[i].caps, slot, rs[i].pos))
  {
    if rs == [] then [] else [Res(rs[0].pos, SetCap(rs[0].caps, slot, rs[0].pos))] + Stamp(rs[1..], slot)
  }
}

/** The definition of the matches, pattern by pattern. */
module RegexEquations {
  import opened RegexSyntax
  import opened RegexSemantics

  lemma CatResults(x: Ctx, back: bool, a: Node, b: Node, cc: nat, s: Res)
    ensures Results(x, back, Once(Cat(a, b), cc), s)
      == var p, q := Once(a, cc), Once(b, cc + NCaps(a));
         if back then All(x, back, p, Results(x, back, q, s)) else All(x, back, q, Results(x, back, p, s))
  {
  }

  lemma AltResults(x: Ctx, back: bool, a: Node, b: Node, cc: nat, s: Res)
    ensures Results(x, back, Once(Alt(a, b), cc), s)
      == Results(x, back, Once(a, cc), s) + Results(x, back, Once(b, cc + NCaps(a)), s)
  {
  }

  lemma GroupResults(x: Ctx, back: bool, b: Node, cc: nat, s: Res)
    ensures var first := if back then 2 * cc + 1 else 2 * cc;
      Results(x, back, Once(Group(b), cc), s)
      == Stamp(Results(x, back, Once(b, cc + 1), s.(caps := SetCap(s.caps, first, s.pos))), 4 * cc + 1 - first)
  {
  }

  lemma LookResults(x: Ctx, back: bool, negative: bool, behind: bool, b: Node, cc: nat, s: Res)
    ensures var inner := Results(x, behind, Once(b, cc), s);
      Results(x, back, Once(Look(negative, behind, b), cc), s)
      == if negative then If(inner == [], s) else if inner == [] then [] else [s.(caps := inner[0].caps)]
  {
  }

  lemma CharResults(x: Ctx, back: bool, r: Node, cc: nat, s: Res)
    requires r.Chr? || r.AnyChar? || r.Class?
    ensures Results(x, back, Once(r, cc), s) == MatchChar(x, back, r, s)
  {
  }

  lemma QuantResults(x: Ctx, back: bool, b: Node, min: int, max: int, greedy: bool, cc: nat, s: Res)
    requires 0 <= min <= max
    ensures var s0 := if min == 0 && NCaps(b) > 0 then s.(caps := ResetCaps(s.caps, cc, cc + NCaps(b) - 1)) else s;
      Results(x, back, Once(Quant(b, min, max, greedy), cc), s)
      == Results(x, back, Rep(b, cc, min, if max == INF then 0 else max - min, max == INF, greedy), s0)
  {
  }

  lemma RepUnfold(x: Ctx, back: bool, b: Node, cc: nat, min: nat, opt: nat, unbounded: bool, greedy: bool, s: Res)
    requires min >= 1
    ensures Results(x, back, Rep(b, cc, min, opt, unbounded, greedy), s)
      == All(x, back, Rep(b, cc, min - 1, opt, unbounded, greedy), Results(x, back, Once(b, cc), s))
  {
  }

  lemma TestResults(x: Ctx, back: bool, r: Node, cc: nat, s: Res)
    requires r.Empty? || r.Bol? || r.Eol? || r.WordB?
    ensures Results(x, back, Once(r, cc), s) == If(Holds(x, r, s.pos), s)
  {
  }

  lemma BackRefResults(x: Ctx, back: bool, n: int, cc: nat, s: Res)
    ensures Results(x, back, Once(BackRef(n), cc), s) == MatchBackRef(x, back, n, s)
  {
  }

  lemma RepNone(x: Ctx, back: bool, b: Node, cc: nat, greedy: bool, s: Res)
    ensures Results(x, back, Rep(b, cc, 0, 0, false, greedy), s) == [s]
  {
  }

  /** Whether an assertion holds at a position. */
  predicate Holds(x: Ctx, r: Node, pos: nat) {
    match r
    case Bol => AtLineStart(x, pos)
    case Eol => AtLineEnd(x, pos)
    case WordB(negated) => AtWordBoundary(x, pos) != negated
    case _ => true
  }
}
