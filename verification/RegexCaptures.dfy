/** What the capture slots of a match hold: for every group the two ends of a text
    that its body matched, or nothing. */
module RegexCaptures {
  import opened RegexSyntax
  import opened RegexSemantics
  import opened RegexEquations
  import opened RegexProgress

  /** The body of group k of a pattern whose groups are numbered from cc. */
  function Body(r: Node, cc: nat, k: nat): Node
    requires cc <= k < cc + NCaps(r)
  {
    match r
    case Cat(a, b) => if k < cc + NCaps(a) then Body(a, cc, k) else Body(b, cc + NCaps(a), k)
    case Alt(a, b) => if k < cc + NCaps(a) then Body(a, cc, k) else Body(b, cc + NCaps(a), k)
    case Group(b) => if k == cc then b else Body(b, cc + 1, k)
    case Look(_, _, b) => Body(b, cc, k)
    case Quant(b, _, _, _) => Body(b, cc, k)
  }

  /** Whether that group is matched backward. */
  function Backward(r: Node, back: bool, cc: nat, k: nat): bool
    requires cc <= k < cc + NCaps(r)
  {
    match r
    case Cat(a, b) => if k < cc + NCaps(a) then Backward(a, back, cc, k) else Backward(b, back, cc + NCaps(a), k)
    case Alt(a, b) => if k < cc + NCaps(a) then Backward(a, back, cc, k) else Backward(b, back, cc + NCaps(a), k)
    case Group(b) => if k == cc then back else Backward(b, back, cc + 1, k)
    case Look(_, behind, b) => Backward(b, behind, cc, k)
    case Quant(b, _, _, _) => Backward(b, back, cc, k)
  }

  /** The body of group k can match the text from i to j. */
  ghost predicate BodyMatches(x: Ctx, body: Node, back: bool, k: nat, i: nat, j: nat) {
    exists s: Res, q: Res :: q in Results(x, back, Once(body, k + 1), s) && s.pos == (if back then j else i) && q.pos == (if back then i else j)
  }

  /** The slots 2 * k and 2 * k + 1 hold -1 both, or the start and the end of a
      text that the body of group k matched. */
  ghost predicate Spans(x: Ctx, body: Node, back: bool, k: nat, caps: seq<int>) {
    2 * k + 1 < |caps| ==>
      || (caps[2 * k] == -1 && caps[2 * k + 1] == -1)
      || (0 <= caps[2 * k] <= caps[2 * k + 1] <= |x.text| && BodyMatches(x, body, back, k, caps[2 * k], caps[2 * k + 1]))
  }

  /** All groups of a pattern are in order. */
  ghost predicate GroupsSpan(x: Ctx, back: bool, r: Node, cc: nat, caps: seq<int>) {
    forall k: nat :: cc <= k < cc + NCaps(r) ==> GroupSpans(x, back, r, cc, k, caps)
  }

  ghost predicate GroupSpans(x: Ctx, back: bool, r: Node, cc: nat, k: nat, caps: seq<int>)
    requires cc <= k < cc + NCaps(r)
  {
    Spans(x, Body(r, cc, k), Backward(r, back, cc, k), k, caps)
  }

  /** A match changes no slots but those of its own groups. */
  predicate OwnSlots(r: Node, cc: nat, s: seq<int>, q: seq<int>) {
    |q| == |s| && forall i :: 0 <= i < |s| && !(2 * cc <= i < 2 * (cc + NCaps(r))) ==> q[i] == s[i]
  }

  /** What a match from s to q does to the slots. */
  ghost predicate Records(x: Ctx, back: bool, r: Node, cc: nat, s: seq<int>, q: seq<int>) {
    OwnSlots(r, cc, s, q) && (GroupsSpan(x, back, r, cc, s) ==> GroupsSpan(x, back, r, cc, q))
  }

  lemma RecordsTwice(x: Ctx, back: bool, r: Node, cc: nat, a: seq<int>, b: seq<int>, c: seq<int>)
    requires Records(x, back, r, cc, a, b) && Records(x, back, r, cc, b, c)
    ensures Records(x, back, r, cc, a, c)
  {
    hide GroupsSpan;
  }

  /** Groups are in order whatever the slots of other groups hold. */
  lemma SpansElsewhere(x: Ctx, back: bool, r: Node, cc: nat, s: seq<int>, q: seq<int>)
    requires |q| == |s| && forall i :: 0 <= i < |s| && 2 * cc <= i < 2 * (cc + NCaps(r)) ==> q[i] == s[i]
    ensures GroupsSpan(x, back, r, cc, s) ==> GroupsSpan(x, back, r, cc, q)
  {
    hide BodyMatches;
    if GroupsSpan(x, back, r, cc, s) {
      forall k: nat | cc <= k < cc + NCaps(r) ensures GroupSpans(x, back, r, cc, k, q) {
        assert GroupSpans(x, back, r, cc, k, s);
      }
    }
  }

  lemma {:induction false} ResultsRecord(x: Ctx, back: bool, p: Plan, s: Res)
    requires InText(x, s)
    ensures forall q :: q in Results(x, back, p, s) ==> Records(x, back, p.r, p.cc, s.caps, q.caps)
    decreases p.r, Rank(p), Count(p), Fuel(x, back, p, s.pos), 2
  {
    hide Records;
    RecordsNone(x, back, p.r, p.cc, s.caps);
    match p
    case Once(r, cc) => NodeRecords(x, back, r, cc, s);
    case Rep(r, cc, min, opt, unbounded, greedy) =>
      if min > 0 || unbounded || opt > 0 {
        var next := if min > 0 then Rep(r, cc, min - 1, opt, unbounded, greedy)
                    else if unbounded then Again(r, cc, greedy, Room(x, back, s.pos))
                    else Rep(r, cc, 0, opt - 1, false, greedy);
        ResultsRecord(x, back, Once(r, cc), s);
        ResultsLater(x, back, Once(r, cc), s);
        AllRecord(x, back, next, Results(x, back, Once(r, cc), s), s.caps);
      }
    case Again(r, cc, greedy, room) =>
      if Room(x, back, s.pos) < room { ResultsRecord(x, back, Rep(r, cc, 0, 0, true, greedy), s); }
  }

  lemma RecordsNone(x: Ctx, back: bool, r: Node, cc: nat, s: seq<int>)
    ensures Records(x, back, r, cc, s, s)
  {
  }

  lemma {:induction false} AllRecord(x: Ctx, back: bool, p: Plan, rs: seq<Res>, s: seq<int>)
    requires forall q :: q in rs ==> q.pos <= |x.text| && Records(x, back, p.r, p.cc, s, q.caps)
    ensures forall q :: q in All(x, back, p, rs) ==> Records(x, back, p.r, p.cc, s, q.caps)
    decreases p.r, Rank(p), Count(p), MaxFuel(x, p), |rs| + 2
  {
    hide Records;
    if rs != [] {
      assert p.Rep? ==> Room(x, back, rs[0].pos) <= |x.text|;
      assert rs[0] in rs && forall q :: q in rs[1..] ==> q in rs;
      ResultsRecord(x, back, p, rs[0]);
      AllRecord(x, back, p, rs[1..], s);
      forall q | q in Results(x, back, p, rs[0]) ensures Records(x, back, p.r, p.cc, s, q.caps) {
        RecordsTwice(x, back, p.r, p.cc, s, rs[0].caps, q.caps);
      }
    }
  }

  lemma {:induction false} NodeRecords(x: Ctx, back: bool, r: Node, cc: nat, s: Res)
    requires InText(x, s)
    ensures forall q :: q in Results(x, back, Once(r, cc), s) ==> Records(x, back, r, cc, s.caps, q.caps)
    decreases r, 0, 0, 0, 1
  {
    hide Results, All, Stamp, Accepts, SetCap, ResetCaps, Records;
    RecordsNone(x, back, r, cc, s.caps);
    match r
    case Chr(_) => CharResults(x, back, r, cc, s);
    case AnyChar => CharResults(x, back, r, cc, s);
    case Class(_) => CharResults(x, back, r, cc, s);
    case BackRef(k) => BackRefResults(x, back, k, cc, s);
    case Cat(a, b) => CatRecords(x, back, a, b, cc, s);
    case Alt(a, b) =>
      AltResults(x, back, a, b, cc, s);
      ResultsRecord(x, back, Once(a, cc), s);
      ResultsRecord(x, back, Once(b, cc + NCaps(a)), s);
      forall q | q in Results(x, back, Once(r, cc), s) ensures Records(x, back, r, cc, s.caps, q.caps) {
        if q in Results(x, back, Once(a, cc), s) { LeftRecords(x, back, r, a, b, cc, s.caps, q.caps); } else { RightRecords(x, back, r, a, b, cc, s.caps, q.caps); }
      }
    case Group(b) => GroupRecords(x, back, b, cc, s);
    case Look(negative, behind, b) =>
      LookResults(x, back, negative, behind, b, cc, s);
      ResultsRecord(x, behind, Once(b, cc), s);
      var inner := Results(x, behind, Once(b, cc), s);
      if inner != [] {
        assert inner[0] in inner;
        LookRecords(x, back, negative, behind, b, cc, s.caps, inner[0].caps);
      }
    case Quant(b, min, max, greedy) => QuantRecords(x, back, b, min, max, greedy, cc, s);
    case _ => TestResults(x, back, r, cc, s);
  }

  /** A match of one of two parts of a pattern. */
  lemma LeftRecords(x: Ctx, back: bool, r: Node, a: Node, b: Node, cc: nat, s: seq<int>, q: seq<int>)
    requires (r == Cat(a, b) || r == Alt(a, b)) && Records(x, back, a, cc, s, q)
    ensures Records(x, back, r, cc, s, q)
  {
    hide Spans;
    SpansElsewhere(x, back, b, cc + NCaps(a), s, q);
    PartsSpan(x, back, r, a, b, cc, s);
    PartsSpan(x, back, r, a, b, cc, q);
    hide GroupsSpan;
  }

  lemma RightRecords(x: Ctx, back: bool, r: Node, a: Node, b: Node, cc: nat, s: seq<int>, q: seq<int>)
    requires (r == Cat(a, b) || r == Alt(a, b)) && Records(x, back, b, cc + NCaps(a), s, q)
    ensures Records(x, back, r, cc, s, q)
  {
    hide Spans;
    SpansElsewhere(x, back, a, cc, s, q);
    PartsSpan(x, back, r, a, b, cc, s);
    PartsSpan(x, back, r, a, b, cc, q);
    hide GroupsSpan;
  }

  lemma PartsSpan(x: Ctx, back: bool, r: Node, a: Node, b: Node, cc: nat, caps: seq<int>)
    requires r == Cat(a, b) || r == Alt(a, b)
    ensures GroupsSpan(x, back, r, cc, caps) <==> GroupsSpan(x, back, a, cc, caps) && GroupsSpan(x, back, b, cc + NCaps(a), caps)
  {
    hide Spans;
    var c := cc + NCaps(a);
    assert forall k: nat :: cc <= k < c ==> (GroupSpans(x, back, r, cc, k, caps) <==> GroupSpans(x, back, a, cc, k, caps));
    assert forall k: nat :: c <= k < c + NCaps(b) ==> (GroupSpans(x, back, r, cc, k, caps) <==> GroupSpans(x, back, b, c, k, caps));
  }

  lemma {:induction false} CatRecords(x: Ctx, back: bool, a: Node, b: Node, cc: nat, s: Res)
    requires InText(x, s)
    ensures forall q :: q in Results(x, back, Once(Cat(a, b), cc), s) ==> Records(x, back, Cat(a, b), cc, s.caps, q.caps)
    decreases Cat(a, b), 0, 0, 0, 0
  {
    hide Results, All, Records;
    CatResults(x, back, a, b, cc, s);
    var r := Cat(a, b);
    var f, g := if back then Once(b, cc + NCaps(a)) else Once(a, cc), if back then Once(a, cc) else Once(b, cc + NCaps(a));
    ResultsRecord(x, back, f, s);
    ResultsLater(x, back, f, s);
    var rs := Results(x, back, f, s);
    forall m | m in rs ensures m.pos <= |x.text| && forall q :: q in Results(x, back, g, m) ==> Records(x, back, r, cc, s.caps, q.caps) {
      assert Later(x, back, s, m);
      ResultsRecord(x, back, g, m);
      forall q | q in Results(x, back, g, m) ensures Records(x, back, r, cc, s.caps, q.caps) {
        if back {
          RightRecords(x, back, r, a, b, cc, s.caps, m.caps);
          LeftRecords(x, back, r, a, b, cc, m.caps, q.caps);
        } else {
          LeftRecords(x, back, r, a, b, cc, s.caps, m.caps);
          RightRecords(x, back, r, a, b, cc, m.caps, q.caps);
        }
        RecordsTwice(x, back, r, cc, s.caps, m.caps, q.caps);
      }
    }
    EveryOf(x, back, g, rs, r, cc, s.caps);
  }

  lemma {:induction false} EveryOf(x: Ctx, back: bool, g: Plan, rs: seq<Res>, r: Node, cc: nat, s: seq<int>)
    requires forall m, q :: m in rs && q in Results(x, back, g, m) ==> Records(x, back, r, cc, s, q.caps)
    ensures forall q :: q in All(x, back, g, rs) ==> Records(x, back, r, cc, s, q.caps)
    decreases |rs|
  {
    hide Results, Records;
    if rs != [] {
      assert rs[0] in rs && forall m :: m in rs[1..] ==> m in rs;
      EveryOf(x, back, g, rs[1..], r, cc, s);
    }
  }

  lemma LookRecords(x: Ctx, back: bool, negative: bool, behind: bool, b: Node, cc: nat, s: seq<int>, q: seq<int>)
    requires Records(x, behind, b, cc, s, q)
    ensures Records(x, back, Look(negative, behind, b), cc, s, q)
  {
    hide Spans;
    SameGroups(x, back, Look(negative, behind, b), behind, b, cc, s);
    SameGroups(x, back, Look(negative, behind, b), behind, b, cc, q);
    hide GroupsSpan;
  }

  /** A look-around and a quantifier have the groups of their body. */
  lemma SameGroups(x: Ctx, back: bool, r: Node, inner: bool, b: Node, cc: nat, caps: seq<int>)
    requires (r.Look? && r.body == b && inner == r.behind) || (r.Quant? && r.body == b && inner == back)
    ensures GroupsSpan(x, back, r, cc, caps) <==> GroupsSpan(x, inner, b, cc, caps)
  {
    hide Spans;
    assert forall k: nat :: cc <= k < cc + NCaps(b) ==> (GroupSpans(x, back, r, cc, k, caps) <==> GroupSpans(x, inner, b, cc, k, caps));
  }

  lemma {:induction false} QuantRecords(x: Ctx, back: bool, b: Node, min: int, max: int, greedy: bool, cc: nat, s: Res)
    requires InText(x, s)
    ensures forall q :: q in Results(x, back, Once(Quant(b, min, max, greedy), cc), s) ==> Records(x, back, Quant(b, min, max, greedy), cc, s.caps, q.caps)
    decreases Quant(b, min, max, greedy), 0, 0, 0, 0
  {
    hide Results, Records, ResetCaps;
    var r := Quant(b, min, max, greedy);
    if 0 <= min <= max {
      QuantResults(x, back, b, min, max, greedy, cc, s);
      var s0 := if min == 0 && NCaps(b) > 0 then s.(caps := ResetCaps(s.caps, cc, cc + NCaps(b) - 1)) else s;
      RecordsNone(x, back, b, cc, s.caps);
      ResetRecords(x, back, b, cc, s.caps);
      ResultsRecord(x, back, Rep(b, cc, min, if max == INF then 0 else max - min, max == INF, greedy), s0);
      forall q | q in Results(x, back, Once(r, cc), s) ensures Records(x, back, r, cc, s.caps, q.caps) {
        RecordsTwice(x, back, b, cc, s.caps, s0.caps, q.caps);
        QuantOfBody(x, back, r, b, cc, s.caps, q.caps);
      }
    } else {
      QuantBad(x, back, b, min, max, greedy, cc, s);
    }
  }

  lemma QuantOfBody(x: Ctx, back: bool, r: Node, b: Node, cc: nat, s: seq<int>, q: seq<int>)
    requires r.Quant? && r.body == b && Records(x, back, b, cc, s, q)
    ensures Records(x, back, r, cc, s, q)
  {
    SameGroups(x, back, r, back, b, cc, s);
    SameGroups(x, back, r, back, b, cc, q);
    hide GroupsSpan;
  }

  /** A reset empties the slots of its groups and no others. */
  lemma ResetSlots(caps: seq<int>, first: nat, last: int)
    ensures var q := ResetCaps(caps, first, last);
      |q| == |caps| && forall i :: 0 <= i < |caps| ==> q[i] == if 2 * first <= i <= 2 * last + 1 then -1 else caps[i]
  {
  }

  lemma ResetRecords(x: Ctx, back: bool, b: Node, cc: nat, s: seq<int>)
    ensures Records(x, back, b, cc, s, ResetCaps(s, cc, cc + NCaps(b) - 1))
  {
    hide BodyMatches;
    ResetSlots(s, cc, cc + NCaps(b) - 1);
    var q := ResetCaps(s, cc, cc + NCaps(b) - 1);
    forall k: nat | cc <= k < cc + NCaps(b) ensures GroupSpans(x, back, b, cc, k, q) {
    }
  }

  /** A slot is set, and no other one. */
  lemma SetSlot(caps: seq<int>, i: nat, v: int)
    ensures var q := SetCap(caps, i, v);
      |q| == |caps| && forall j :: 0 <= j < |caps| ==> q[j] == if j == i then v else caps[j]
  {
  }

  /** The slots of a group after a match of it: its start and its end, and what the
      body has left in the others. */
  lemma GroupSlots(x: Ctx, back: bool, b: Node, cc: nat, s: Res, q: Res) returns (s': Res, m: Res)
    requires InText(x, s) && q in Results(x, back, Once(Group(b), cc), s)
    ensures s'.pos == s.pos && |s'.caps| == |s.caps| && m in Results(x, back, Once(b, cc + 1), s') && m.pos == q.pos && |m.caps| == |q.caps|
    ensures forall i :: 0 <= i < |s.caps| && i != (if back then 2 * cc + 1 else 2 * cc) ==> s'.caps[i] == s.caps[i]
    ensures forall i :: 0 <= i < |q.caps| && i != (if back then 2 * cc else 2 * cc + 1) ==> q.caps[i] == m.caps[i]
    ensures |q.caps| == |s.caps| ==> 2 * cc + 1 < |q.caps| ==>
      && s'.caps[if back then 2 * cc + 1 else 2 * cc] == s.pos && q.caps[if back then 2 * cc else 2 * cc + 1] == q.pos
  {
    hide Results, SetCap;
    var first := if back then 2 * cc + 1 else 2 * cc;
    s' := s.(caps := SetCap(s.caps, first, s.pos));
    SetSlot(s.caps, first, s.pos);
    GroupResults(x, back, b, cc, s);
    var inner := Results(x, back, Once(b, cc + 1), s');
    var outer := Stamp(inner, 4 * cc + 1 - first);
    var i :| 0 <= i < |outer| && outer[i] == q;
    m := inner[i];
    SetSlot(m.caps, 4 * cc + 1 - first, m.pos);
  }

  /** Group cc of a match: the slots hold the start and the end of the match. */
  lemma {:induction false} GroupEnds(x: Ctx, back: bool, b: Node, cc: nat, s: Res, q: Res)
    requires InText(x, s) && q in Results(x, back, Once(Group(b), cc), s) && 2 * cc + 1 < |s.caps|
    ensures |q.caps| == |s.caps|
    ensures if back then q.caps[2 * cc] == q.pos && q.caps[2 * cc + 1] == s.pos else q.caps[2 * cc] == s.pos && q.caps[2 * cc + 1] == q.pos
    ensures q.pos <= |x.text| && BodyMatches(x, b, back, cc, if back then q.pos else s.pos, if back then s.pos else q.pos)
    decreases b, 1
  {
    hide Results;
    var s', m := GroupSlots(x, back, b, cc, s, q);
    ResultsRecord(x, back, Once(b, cc + 1), s');
    ResultsLater(x, back, Once(b, cc + 1), s');
    assert Later(x, back, s', m) && Records(x, back, b, cc + 1, s'.caps, m.caps);
    assert s' == Res(s.pos, s'.caps);
  }

  lemma {:induction false} GroupRecords(x: Ctx, back: bool, b: Node, cc: nat, s: Res)
    requires InText(x, s)
    ensures forall q :: q in Results(x, back, Once(Group(b), cc), s) ==> Records(x, back, Group(b), cc, s.caps, q.caps)
    decreases Group(b), 0, 0, 0, 0
  {
    hide Results, Records;
    forall q | q in Results(x, back, Once(Group(b), cc), s) ensures Records(x, back, Group(b), cc, s.caps, q.caps) {
      var s', m := GroupSlots(x, back, b, cc, s, q);
      ResultsRecord(x, back, Once(b, cc + 1), s');
      if 2 * cc + 1 < |s.caps| { GroupEnds(x, back, b, cc, s, q); }
      ResultsLater(x, back, Once(b, cc + 1), s');
      assert Later(x, back, s', m);
      GroupOfBody(x, back, b, cc, s, s'.caps, m.caps, q);
    }
  }

  lemma GroupOfBody(x: Ctx, back: bool, b: Node, cc: nat, s: Res, a: seq<int>, m: seq<int>, q: Res)
    requires Records(x, back, b, cc + 1, a, m) && |a| == |s.caps| && |m| == |q.caps| && InText(x, s)
    requires forall i :: 0 <= i < |a| && !(2 * cc <= i <= 2 * cc + 1) ==> a[i] == s.caps[i]
    requires forall i :: 0 <= i < |m| && !(2 * cc <= i <= 2 * cc + 1) ==> q.caps[i] == m[i]
    requires if back then q.pos <= s.pos else s.pos <= q.pos <= |x.text|
    requires 2 * cc + 1 < |s.caps| ==>
      var i, j := if back then q.pos else s.pos, if back then s.pos else q.pos;
      q.caps[2 * cc] == i && q.caps[2 * cc + 1] == j && BodyMatches(x, b, back, cc, i, j)
    ensures Records(x, back, Group(b), cc, s.caps, q.caps)
  {
    hide BodyMatches;
    var r := Group(b);
    if GroupsSpan(x, back, r, cc, s.caps) {
      InnerSpan(x, back, b, cc, s.caps);
      SpansElsewhere(x, back, b, cc + 1, s.caps, a);
      SpansElsewhere(x, back, b, cc + 1, m, q.caps);
      forall k: nat | cc <= k < cc + NCaps(r) ensures GroupSpans(x, back, r, cc, k, q.caps) {
        if k > cc { assert GroupSpans(x, back, b, cc + 1, k, q.caps); }
      }
    }
  }

  lemma InnerSpan(x: Ctx, back: bool, b: Node, cc: nat, caps: seq<int>)
    requires GroupsSpan(x, back, Group(b), cc, caps)
    ensures GroupsSpan(x, back, b, cc + 1, caps)
  {
    hide Spans;
    var c := cc + 1;
    assert forall k: nat :: c <= k < c + NCaps(b) ==> (GroupSpans(x, back, b, c, k, caps) <==> GroupSpans(x, back, Group(b), cc, k, caps));
  }

  /** The captures of a match of a whole pattern, numbered from 0: capture 0 is the
      match itself, and every group is a text that its body matched, or unset. */
  lemma WholeCaptures(x: Ctx, r: Node, s: Res, q: Res)
    requires InText(x, s) && q in Results(x, false, Once(Group(r), 0), s) && |s.caps| >= 2 && forall i :: 0 <= i < |s.caps| ==> s.caps[i] == -1
    ensures |q.caps| == |s.caps| && q.caps[0] == s.pos && q.caps[1] == q.pos && s.pos <= q.pos <= |x.text|
    ensures GroupsSpan(x, false, Group(r), 0, q.caps)
  {
    hide Results, BodyMatches;
    GroupEnds(x, false, r, 0, s, q);
    NodeRecords(x, false, Group(r), 0, s);
    assert Records(x, false, Group(r), 0, s.caps, q.caps);
    ResultsLater(x, false, Once(Group(r), 0), s);
    assert Later(x, false, s, q);
    forall k: nat | 0 <= k < 0 + NCaps(Group(r)) ensures GroupSpans(x, false, Group(r), 0, k, s.caps) {
    }
  }
}
