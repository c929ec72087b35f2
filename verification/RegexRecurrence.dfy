/** How often the atom of a loop can be matched in a row: without end exactly when
    the loop can come back to a position with the same captures. */
module RegexRecurrence {
  import opened RegexSyntax
  import opened RegexSemantics
  import opened RegexEquations
  import opened RegexProgress
  import opened RegexAdvance
  import opened RegexReversal

  /** The matches of the atom from a state. */
  ghost function At1(x: Ctx, b: Node, s: Res): seq<Res> {
    Results(x, false, Once(b, 1), s)
  }

  /** No n matches of the atom follow one another from s on. */
  ghost predicate Ends(x: Ctx, b: Node, s: Res, n: nat)
    decreases n
  {
    n > 0 && forall q :: q in At1(x, b, s) ==> Ends(x, b, q, n - 1)
  }

  ghost predicate Stops(x: Ctx, b: Node, s: Res) {
    exists n: nat :: Ends(x, b, s, n)
  }

  /** n rounds of the loop lead from s to q. */
  ghost predicate Rounds(x: Ctx, b: Node, s: Res, q: Res, n: nat)
    decreases n
  {
    if n == 0 then s == q else exists m :: m in At1(x, b, s) && Rounds(x, b, m, q, n - 1)
  }

  /** The loop from s on can come to a state and back to it. */
  ghost predicate Recurs(x: Ctx, b: Node, s: Res) {
    exists q: Res, i: nat, j: nat :: j > 0 && Rounds(x, b, s, q, i) && Rounds(x, b, q, q, j)
  }

  lemma {:induction false} EndsMore(x: Ctx, b: Node, s: Res, n: nat, m: nat)
    requires Ends(x, b, s, n) && n <= m
    ensures Ends(x, b, s, m)
    decreases n
  {
    hide At1;
    forall q | q in At1(x, b, s) ensures Ends(x, b, q, m - 1) { EndsMore(x, b, q, n - 1, m - 1); }
  }

  lemma {:induction false} EndsBehind(x: Ctx, b: Node, s: Res, q: Res, n: nat, i: nat)
    requires Ends(x, b, s, n) && Rounds(x, b, s, q, i)
    ensures i < n && Ends(x, b, q, n - i)
    decreases i
  {
    hide At1;
    if i > 0 {
      var m :| m in At1(x, b, s) && Rounds(x, b, m, q, i - 1);
      EndsBehind(x, b, m, q, n - 1, i - 1);
    }
  }

  /** Coming back excludes every bound. */
  lemma {:induction false} BackNoBound(x: Ctx, b: Node, q: Res, j: nat, n: nat)
    requires j > 0 && Rounds(x, b, q, q, j)
    ensures !Ends(x, b, q, n)
    decreases n
  {
    hide At1, Rounds;
    if Ends(x, b, q, n) {
      EndsBehind(x, b, q, q, n, j);
      BackNoBound(x, b, q, j, n - j);
    }
  }

  lemma RecursNeverStops(x: Ctx, b: Node, s: Res)
    requires Recurs(x, b, s)
    ensures !Stops(x, b, s)
  {
    hide Ends, Rounds;
    var q: Res, i: nat, j: nat :| j > 0 && Rounds(x, b, s, q, i) && Rounds(x, b, q, q, j);
    forall n: nat ensures !Ends(x, b, s, n) {
      if Ends(x, b, s, n) {
        EndsBehind(x, b, s, q, n, i);
        BackNoBound(x, b, q, j, n - i);
      }
    }
  }

  /** When all matches stop there is one bound for all of them. */
  lemma {:induction false} OneBound(x: Ctx, b: Node, rs: seq<Res>) returns (n: nat)
    requires forall q :: q in rs ==> Stops(x, b, q)
    ensures forall q :: q in rs ==> Ends(x, b, q, n)
    decreases |rs|
  {
    hide Ends;
    if rs == [] {
      n := 0;
    } else {
      assert rs[0] in rs && forall q :: q in rs[1..] ==> q in rs;
      var m := OneBound(x, b, rs[1..]);
      var k: nat :| Ends(x, b, rs[0], k);
      n := if m < k then k else m;
      forall q | q in rs ensures Ends(x, b, q, n) {
        if q == rs[0] { EndsMore(x, b, q, k, n); } else { assert q in rs[1..]; EndsMore(x, b, q, m, n); }
      }
    }
  }

  /** A state that does not stop has a match that does not stop. */
  lemma NonStop(x: Ctx, b: Node, s: Res)
    requires forall q :: q in At1(x, b, s) ==> Stops(x, b, q)
    ensures Stops(x, b, s)
  {
    hide At1;
    var n := OneBound(x, b, At1(x, b, s));
    assert Ends(x, b, s, n + 1);
  }

  // States that can come up

  /** Positions and captures inside the subject. */
  predicate Inside(x: Ctx, n: nat, s: Res) {
    InText(x, s) && |s.caps| == n && forall i :: 0 <= i < n ==> -1 <= s.caps[i] <= |x.text|
  }

  lemma SetInside(x: Ctx, n: nat, s: Res, i: nat)
    requires Inside(x, n, s)
    ensures Inside(x, n, s.(caps := SetCap(s.caps, i, s.pos)))
  {
  }

  lemma ResetInside(x: Ctx, n: nat, s: Res, first: nat, last: int)
    requires Inside(x, n, s)
    ensures Inside(x, n, s.(caps := ResetCaps(s.caps, first, last)))
  {
  }

  lemma {:induction false} ResultsInside(x: Ctx, back: bool, p: Plan, n: nat, s: Res)
    requires Inside(x, n, s)
    ensures forall q :: q in Results(x, back, p, s) ==> Inside(x, n, q)
    decreases p.r, Rank(p), Count(p), Fuel(x, back, p, s.pos), 2
  {
    hide Inside;
    StateIn(x, n, s);
    match p
    case Once(r, cc) => NodeInside(x, back, r, cc, n, s);
    case Rep(r, cc, min, opt, unbounded, greedy) =>
      if min > 0 || unbounded || opt > 0 {
        var next := if min > 0 then Rep(r, cc, min - 1, opt, unbounded, greedy)
                    else if unbounded then Again(r, cc, greedy, Room(x, back, s.pos))
                    else Rep(r, cc, 0, opt - 1, false, greedy);
        ResultsInside(x, back, Once(r, cc), n, s);
        AllInside(x, back, next, n, Results(x, back, Once(r, cc), s));
      }
    case Again(r, cc, greedy, room) =>
      if Room(x, back, s.pos) < room {
        ResultsInside(x, back, Rep(r, cc, 0, 0, true, greedy), n, s);
      }
  }

  lemma StateIn(x: Ctx, n: nat, s: Res)
    requires Inside(x, n, s)
    ensures InText(x, s)
  {
  }

  lemma {:induction false} NodeInside(x: Ctx, back: bool, r: Node, cc: nat, n: nat, s: Res)
    requires Inside(x, n, s)
    ensures forall q :: q in Results(x, back, Once(r, cc), s) ==> Inside(x, n, q)
    decreases r, 0, 0, 0, 1
  {
    hide Results, All, Stamp, Accepts, SetCap, ResetCaps;
    match r
    case Chr(_) => CharResults(x, back, r, cc, s);
    case AnyChar => CharResults(x, back, r, cc, s);
    case Class(_) => CharResults(x, back, r, cc, s);
    case BackRef(k) => BackRefResults(x, back, k, cc, s);
    case Cat(a, b) =>
      CatResults(x, back, a, b, cc, s);
      var f, g := if back then Once(b, cc + NCaps(a)) else Once(a, cc), if back then Once(a, cc) else Once(b, cc + NCaps(a));
      ResultsInside(x, back, f, n, s);
      AllInside(x, back, g, n, Results(x, back, f, s));
    case Alt(a, b) =>
      AltResults(x, back, a, b, cc, s);
      ResultsInside(x, back, Once(a, cc), n, s);
      ResultsInside(x, back, Once(b, cc + NCaps(a)), n, s);
    case Group(b) => GroupInside(x, back, b, cc, n, s);
    case Look(negative, behind, b) =>
      LookResults(x, back, negative, behind, b, cc, s);
      ResultsInside(x, behind, Once(b, cc), n, s);
      var inner := Results(x, behind, Once(b, cc), s);
      if inner != [] { assert inner[0] in inner; }
    case Quant(b, min, max, greedy) =>
      if 0 <= min <= max {
        QuantResults(x, back, b, min, max, greedy, cc, s);
        var s0 := if min == 0 && NCaps(b) > 0 then s.(caps := ResetCaps(s.caps, cc, cc + NCaps(b) - 1)) else s;
        ResetInside(x, n, s, cc, cc + NCaps(b) - 1);
        ResultsInside(x, back, Rep(b, cc, min, if max == INF then 0 else max - min, max == INF, greedy), n, s0);
      } else {
        QuantBad(x, back, b, min, max, greedy, cc, s);
      }
    case _ => TestResults(x, back, r, cc, s);
  }

  lemma {:induction false} GroupInside(x: Ctx, back: bool, b: Node, cc: nat, n: nat, s: Res)
    requires Inside(x, n, s)
    ensures forall q :: q in Results(x, back, Once(Group(b), cc), s) ==> Inside(x, n, q)
    decreases Group(b), 0, 0, 0, 0
  {
    hide Results, Stamp, SetCap, Inside;
    var first := if back then 2 * cc + 1 else 2 * cc;
    var s' := s.(caps := SetCap(s.caps, first, s.pos));
    SetInside(x, n, s, first);
    GroupResults(x, back, b, cc, s);
    var inner := Results(x, back, Once(b, cc + 1), s');
    ResultsInside(x, back, Once(b, cc + 1), n, s');
    var outer := Stamp(inner, 4 * cc + 1 - first);
    forall q | q in outer ensures Inside(x, n, q) {
      var i :| 0 <= i < |outer| && outer[i] == q;
      assert inner[i] in inner;
      SetInside(x, n, inner[i], 4 * cc + 1 - first);
    }
  }

  lemma {:induction false} AllInside(x: Ctx, back: bool, p: Plan, n: nat, rs: seq<Res>)
    requires forall q :: q in rs ==> Inside(x, n, q)
    ensures forall q :: q in All(x, back, p, rs) ==> Inside(x, n, q)
    decreases p.r, Rank(p), Count(p), MaxFuel(x, p), |rs| + 2
  {
    hide Inside;
    if rs != [] {
      assert p.Rep? ==> Room(x, back, rs[0].pos) <= |x.text|;
      assert rs[0] in rs && forall q :: q in rs[1..] ==> q in rs;
      ResultsInside(x, back, p, n, rs[0]);
      AllInside(x, back, p, n, rs[1..]);
    }
  }

  // There are finitely many of them

  /** -1 .. n - 1. */
  ghost function Numbers(n: nat): (s: set<int>)
    ensures forall i :: i in s <==> -1 <= i < n
  {
    if n == 0 then {-1} else Numbers(n - 1) + {n - 1}
  }

  ghost function Tuples(n: nat, top: nat): set<seq<int>> {
    if n == 0 then {[]} else set c, v | c in Tuples(n - 1, top) && v in Numbers(top + 1) :: c + [v]
  }

  lemma {:induction false} InTuples(c: seq<int>, top: nat)
    requires forall i :: 0 <= i < |c| ==> -1 <= c[i] <= top
    ensures c in Tuples(|c|, top)
    decreases |c|
  {
    if c != [] {
      var d, v := c[..|c| - 1], c[|c| - 1];
      InTuples(d, top);
      assert c == d + [v] && v in Numbers(top + 1);
    }
  }

  ghost function States(x: Ctx, n: nat): set<Res> {
    set p, c | p in Numbers(|x.text| + 1) && 0 <= p && c in Tuples(n, |x.text|) :: Res(p, c)
  }

  lemma InStates(x: Ctx, n: nat, s: Res)
    requires Inside(x, n, s)
    ensures s in States(x, n)
  {
    hide Tuples;
    InTuples(s.caps, |x.text|);
    assert s.pos in Numbers(|x.text| + 1);
  }

  /** More states than there are must repeat one. */
  lemma {:induction false} Repeats(rs: seq<Res>, all: set<Res>)
    requires |rs| > |all| && forall q :: q in rs ==> q in all
    ensures exists i, j :: 0 <= i < j < |rs| && rs[i] == rs[j]
    decreases |rs|
  {
    if rs == [] { return; }
    var last, init := rs[|rs| - 1], rs[..|rs| - 1];
    assert last in rs;
    if last in init {
      var i :| 0 <= i < |init| && init[i] == last;
      assert rs[i] == rs[|rs| - 1];
    } else {
      forall q | q in init ensures q in all - {last} { assert q in rs; }
      Repeats(init, all - {last});
      var i, j :| 0 <= i < j < |init| && init[i] == init[j];
      assert rs[i] == rs[j];
    }
  }

  /** A chain of matches. */
  ghost predicate Chained(x: Ctx, b: Node, rs: seq<Res>) {
    forall i :: 0 <= i < |rs| - 1 ==> rs[i + 1] in At1(x, b, rs[i])
  }

  lemma {:induction false} LongChain(x: Ctx, b: Node, s: Res, n: nat) returns (rs: seq<Res>)
    requires !Ends(x, b, s, n)
    ensures |rs| == n + 1 && rs[0] == s && Chained(x, b, rs)
    decreases n
  {
    hide At1;
    if n == 0 {
      rs := [s];
    } else {
      var q :| q in At1(x, b, s) && !Ends(x, b, q, n - 1);
      var more := LongChain(x, b, q, n - 1);
      rs := [s] + more;
    }
  }

  lemma {:induction false} ChainRounds(x: Ctx, b: Node, rs: seq<Res>, i: nat, j: nat)
    requires Chained(x, b, rs) && i <= j < |rs|
    ensures Rounds(x, b, rs[i], rs[j], j - i)
    decreases j - i
  {
    hide At1;
    if i < j { ChainRounds(x, b, rs, i + 1, j); }
  }

  lemma {:induction false} ChainInside(x: Ctx, b: Node, rs: seq<Res>, n: nat, i: nat)
    requires Chained(x, b, rs) && i < |rs| && Inside(x, n, rs[0])
    ensures Inside(x, n, rs[i])
    decreases i
  {
    hide Results, Inside;
    if i > 0 {
      ChainInside(x, b, rs, n, i - 1);
      ResultsInside(x, false, Once(b, 1), n, rs[i - 1]);
      assert rs[i - 1 + 1] in At1(x, b, rs[i - 1]);
    }
  }

  /** A loop without end comes back. */
  lemma EndlessRecurs(x: Ctx, b: Node, s: Res)
    requires Inside(x, |s.caps|, s) && !Stops(x, b, s)
    ensures Recurs(x, b, s)
  {
    hide At1, Inside, States, Chained, Ends, Rounds;
    var n, all := |s.caps|, States(x, |s.caps|);
    assert !Ends(x, b, s, |all|);
    var rs := LongChain(x, b, s, |all|);
    forall q | q in rs ensures q in all {
      var i :| 0 <= i < |rs| && rs[i] == q;
      ChainInside(x, b, rs, n, i);
      InStates(x, n, q);
    }
    Repeats(rs, all);
    var i, j :| 0 <= i < j < |rs| && rs[i] == rs[j];
    ChainRounds(x, b, rs, 0, i);
    ChainRounds(x, b, rs, i, j);
    assert Rounds(x, b, s, rs[i], i - 0) && Rounds(x, b, rs[i], rs[i], j - i);
  }

  /** The loop stops exactly when it cannot come back to a state. */
  lemma StopsIff(x: Ctx, b: Node, s: Res)
    requires Inside(x, |s.caps|, s)
    ensures Stops(x, b, s) <==> !Recurs(x, b, s)
  {
    hide Inside, Ends, Rounds, Stops, Recurs;
    if Recurs(x, b, s) { RecursNeverStops(x, b, s); }
    if !Stops(x, b, s) { EndlessRecurs(x, b, s); }
  }

  // Atoms without captures, and atoms that always move

  lemma {:induction false} RoundsLater(x: Ctx, b: Node, s: Res, q: Res, n: nat)
    requires InText(x, s) && Rounds(x, b, s, q, n)
    ensures s.pos <= q.pos <= |x.text| && (Plain(b) ==> q.caps == s.caps)
    decreases n
  {
    hide Results;
    if n > 0 {
      var m :| m in At1(x, b, s) && Rounds(x, b, m, q, n - 1);
      ResultsLater(x, false, Once(b, 1), s);
      assert Later(x, false, s, m);
      if Plain(b) {
        NodeKeeps(x, false, b, 1, s.caps);
        KeptCaps(x, false, Once(b, 1), s.caps, s, m);
      }
      RoundsLater(x, b, m, q, n - 1);
    }
  }

  /** Without captures the loop comes back exactly when it comes to a place where
      its atom matches without moving. */
  lemma PlainRecurs(x: Ctx, b: Node, s: Res)
    requires Plain(b) && InText(x, s)
    ensures Recurs(x, b, s) <==> exists q: Res, i: nat :: Rounds(x, b, s, q, i) && q in At1(x, b, q)
  {
    hide At1;
    if Recurs(x, b, s) {
      var q: Res, i: nat, j: nat :| j > 0 && Rounds(x, b, s, q, i) && Rounds(x, b, q, q, j);
      RoundsLater(x, b, s, q, i);
      var m :| m in At1(x, b, q) && Rounds(x, b, m, q, j - 1);
      OneRound(x, b, q, m);
      RoundsLater(x, b, q, m, 1);
      RoundsLater(x, b, m, q, j - 1);
      assert m == q;
    }
    if q: Res, i: nat :| Rounds(x, b, s, q, i) && q in At1(x, b, q) {
      OneRound(x, b, q, q);
    }
  }

  lemma OneRound(x: Ctx, b: Node, s: Res, m: Res)
    requires m in At1(x, b, s)
    ensures Rounds(x, b, s, m, 1)
  {
    assert Rounds(x, b, m, m, 0);
  }

  /** An atom all of whose branches read a character never comes back. */
  lemma MovingNeverRecurs(x: Ctx, b: Node, s: Res)
    requires WellFormed(b) && !MayBeEmpty(b) && InText(x, s)
    ensures !Recurs(x, b, s)
  {
    hide Results;
    if Recurs(x, b, s) {
      var q: Res, i: nat, j: nat :| j > 0 && Rounds(x, b, s, q, i) && Rounds(x, b, q, q, j);
      RoundsLater(x, b, s, q, i);
      var m :| m in At1(x, b, q) && Rounds(x, b, m, q, j - 1);
      NeverEmptyAdvances(x, false, b, 1);
      OneRound(x, b, q, m);
      RoundsLater(x, b, q, m, 1);
      RoundsLater(x, b, m, q, j - 1);
    }
  }
}
