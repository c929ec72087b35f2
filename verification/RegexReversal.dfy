/** Matching backward undoes matching forward: for patterns without captures
    and back references, the backward direction leads from j to i exactly when
    the forward direction leads from i to j. */
module RegexReversal {
  import opened RegexSyntax
  import opened RegexSemantics
  import opened RegexEquations
  import opened RegexProgress
  import opened RegexCorrectness
  import opened RegexAdvance

  /** No captures and no back references. */
  predicate Plain(r: Node) {
    match r
    case BackRef(_) => false
    case Group(_) => false
    case Cat(a, b) => Plain(a) && Plain(b)
    case Alt(a, b) => Plain(a) && Plain(b)
    case Look(_, _, b) => Plain(b)
    case Quant(b, min, max, _) => Plain(b) && 0 <= min <= max
    case _ => true
  }

  lemma {:induction false} PlainHasNoCaps(r: Node)
    requires Plain(r)
    ensures NCaps(r) == 0
  {
    match r
    case Cat(a, b) => PlainHasNoCaps(a); PlainHasNoCaps(b);
    case Alt(a, b) => PlainHasNoCaps(a); PlainHasNoCaps(b);
    case Look(_, _, b) => PlainHasNoCaps(b);
    case Quant(b, _, _, _) => PlainHasNoCaps(b);
    case _ =>
  }

  /** A plan over a plain pattern leads from `i` to `j` with unchanged captures. */
  ghost predicate Leads(x: Ctx, back: bool, p: Plan, caps: seq<int>, i: nat, j: nat) {
    Res(j, caps) in Results(x, back, p, Res(i, caps))
  }

  ghost predicate Keeps(x: Ctx, back: bool, p: Plan, caps: seq<int>) {
    forall s: Res, q :: s.caps == caps && q in Results(x, back, p, s) ==> q.caps == caps
  }

  lemma {:induction false} AllHas(x: Ctx, back: bool, p: Plan, rs: seq<Res>, m: Res, q: Res)
    requires m in rs && q in Results(x, back, p, m)
    ensures q in All(x, back, p, rs)
    decreases |rs|
  {
    hide Results;
    if m != rs[0] {
      assert m in rs[1..];
      AllHas(x, back, p, rs[1..], m, q);
    }
  }

  /** One plan after another leads where their composition leads. */
  lemma ThenLeads(x: Ctx, back: bool, p: Plan, q: Plan, caps: seq<int>, i: nat, j: nat)
    requires Keeps(x, back, p, caps)
    ensures Res(j, caps) in All(x, back, q, Results(x, back, p, Res(i, caps)))
      <==> exists k: nat :: Leads(x, back, p, caps, i, k) && Leads(x, back, q, caps, k, j)
  {
    hide Results, All;
    var rs := Results(x, back, p, Res(i, caps));
    if Res(j, caps) in All(x, back, q, rs) {
      var m := AllMember(x, back, q, rs, Res(j, caps));
      assert m == Res(m.pos, caps);
      assert Leads(x, back, p, caps, i, m.pos) && Leads(x, back, q, caps, m.pos, j);
    }
    if k: nat :| Leads(x, back, p, caps, i, k) && Leads(x, back, q, caps, k, j) {
      AllHas(x, back, q, rs, Res(k, caps), Res(j, caps));
    }
  }

  lemma ThenKeeps(x: Ctx, back: bool, p: Plan, q: Plan, caps: seq<int>, s: Res, e: Res)
    requires Keeps(x, back, p, caps) && Keeps(x, back, q, caps) && s.caps == caps
    requires e in All(x, back, q, Results(x, back, p, s))
    ensures e.caps == caps
  {
    hide Results, All;
    var m := AllMember(x, back, q, Results(x, back, p, s), e);
  }

  lemma {:induction false} NodeKeeps(x: Ctx, back: bool, r: Node, cc: nat, caps: seq<int>)
    requires Plain(r)
    ensures Keeps(x, back, Once(r, cc), caps)
    decreases r, 2
  {
    hide Results, All;
    match r
    case Cat(a, b) =>
      NodeKeeps(x, back, a, cc, caps);
      NodeKeeps(x, back, b, cc + NCaps(a), caps);
      var f, g := if back then Once(b, cc + NCaps(a)) else Once(a, cc), if back then Once(a, cc) else Once(b, cc + NCaps(a));
      forall s: Res, q | s.caps == caps && q in Results(x, back, Once(r, cc), s) ensures q.caps == caps {
        CatResults(x, back, a, b, cc, s);
        ThenKeeps(x, back, f, g, caps, s, q);
      }
    case Alt(a, b) =>
      NodeKeeps(x, back, a, cc, caps);
      NodeKeeps(x, back, b, cc + NCaps(a), caps);
      forall s: Res, q | s.caps == caps && q in Results(x, back, Once(r, cc), s) ensures q.caps == caps { AltResults(x, back, a, b, cc, s); }
    case Look(negative, behind, b) =>
      NodeKeeps(x, behind, b, cc, caps);
      forall s: Res, q | s.caps == caps && q in Results(x, back, Once(r, cc), s) ensures q.caps == caps {
        LookResults(x, back, negative, behind, b, cc, s);
        var inner := Results(x, behind, Once(b, cc), s);
        if inner != [] { assert inner[0] in inner; }
      }
    case Quant(b, min, max, greedy) =>
      NodeKeeps(x, back, b, cc, caps);
      PlainHasNoCaps(b);
      var p := RepOf(b, cc, min, max, greedy);
      forall s: Res, q | s.caps == caps && q in Results(x, back, Once(r, cc), s) ensures q.caps == caps {
        QuantResults(x, back, b, min, max, greedy, cc, s);
        RepKeeps(x, back, p, caps, s, q);
      }
    case BackRef(_) =>
    case Group(_) =>
    case _ => LeafKeeps(x, back, r, cc, caps);
  }

  lemma LeafKeeps(x: Ctx, back: bool, r: Node, cc: nat, caps: seq<int>)
    requires !r.BackRef? && !r.Group? && !r.Cat? && !r.Alt? && !r.Look? && !r.Quant?
    ensures Keeps(x, back, Once(r, cc), caps)
  {
  }

  lemma {:induction false} RepKeeps(x: Ctx, back: bool, p: Plan, caps: seq<int>, s: Res, q: Res)
    requires !p.Once? && Keeps(x, back, Once(p.r, p.cc), caps) && s.caps == caps && q in Results(x, back, p, s)
    ensures q.caps == caps
    decreases Count(p), Fuel(x, back, p, s.pos)
  {
    hide All, NodeResults;
    var once := Once(p.r, p.cc);
    match p
    case Rep(r, cc, min, opt, unbounded, greedy) =>
      if q != s || min > 0 {
        var next := if min > 0 then Rep(r, cc, min - 1, opt, unbounded, greedy)
                    else if unbounded then Again(r, cc, greedy, Room(x, back, s.pos))
                    else Rep(r, cc, 0, opt - 1, false, greedy);
        var m := AllMember(x, back, next, Results(x, back, once, s), q);
        RepKeeps(x, back, next, caps, m, q);
      }
    case Again(r, cc, greedy, room) =>
      if Room(x, back, s.pos) < room { RepKeeps(x, back, Rep(r, cc, 0, 0, true, greedy), caps, s, q); }
  }

  /** `n` iterations lead from `i` to `j`. */
  ghost predicate Path(x: Ctx, back: bool, p: Plan, caps: seq<int>, i: nat, j: nat, n: nat)
    decreases n
  {
    if n == 0 then i == j
    else exists k: nat :: Leads(x, back, p, caps, i, k) && Path(x, back, p, caps, k, j, n - 1)
  }

  /** The same, taking the last iteration first. */
  lemma {:induction false} PathLast(x: Ctx, back: bool, p: Plan, caps: seq<int>, i: nat, j: nat, n: nat)
    requires n > 0
    ensures Path(x, back, p, caps, i, j, n)
      <==> exists k: nat :: Path(x, back, p, caps, i, k, n - 1) && Leads(x, back, p, caps, k, j)
    decreases n
  {
    hide Leads;
    if n == 1 {
      if Path(x, back, p, caps, i, j, 1) {
        var k: nat :| Leads(x, back, p, caps, i, k) && Path(x, back, p, caps, k, j, 0);
        assert Path(x, back, p, caps, i, i, 0);
      }
      if k: nat :| Path(x, back, p, caps, i, k, 0) && Leads(x, back, p, caps, k, j) {
        assert Path(x, back, p, caps, j, j, 0);
      }
    } else {
      if Path(x, back, p, caps, i, j, n) {
        var m: nat :| Leads(x, back, p, caps, i, m) && Path(x, back, p, caps, m, j, n - 1);
        PathLast(x, back, p, caps, m, j, n - 1);
        var k: nat :| Path(x, back, p, caps, m, k, n - 2) && Leads(x, back, p, caps, k, j);
        assert Path(x, back, p, caps, i, k, n - 1);
      }
      if k: nat :| Path(x, back, p, caps, i, k, n - 1) && Leads(x, back, p, caps, k, j) {
        var m: nat :| Leads(x, back, p, caps, i, m) && Path(x, back, p, caps, m, k, n - 2);
        PathLast(x, back, p, caps, m, j, n - 1);
        assert Path(x, back, p, caps, m, j, n - 1);
      }
    }
  }

  predicate Allowed(p: Plan, n: nat)
    requires p.Rep?
  {
    p.min <= n && (p.unbounded || n <= p.min + p.opt)
  }

  /** A repetition leads only along paths of an allowed length ... */
  lemma {:induction false} RepPath(x: Ctx, back: bool, p: Plan, caps: seq<int>, i: nat, j: nat) returns (n: nat)
    requires p.Rep? && Keeps(x, back, Once(p.r, p.cc), caps) && Leads(x, back, p, caps, i, j)
    ensures Allowed(p, n) && Path(x, back, Once(p.r, p.cc), caps, i, j, n)
    decreases Count(p), Fuel(x, back, p, i)
  {
    hide All, NodeResults;
    var s, q, once := Res(i, caps), Res(j, caps), Once(p.r, p.cc);
    if p.min == 0 && q == s {
      n := 0;
    } else {
      var next := if p.min > 0 then p.(min := p.min - 1)
                  else if p.unbounded then Again(p.r, p.cc, p.greedy, Room(x, back, i))
                  else p.(opt := p.opt - 1);
      var m := AllMember(x, back, next, Results(x, back, once, s), q);
      assert m == Res(m.pos, caps) && Leads(x, back, once, caps, i, m.pos);
      if next.Again? {
        var rep := Rep(p.r, p.cc, 0, 0, true, p.greedy);
        if Room(x, back, m.pos) < next.room {
          n := RepPath(x, back, rep, caps, m.pos, j);
        } else {
          n := 0;
        }
      } else {
        n := RepPath(x, back, next, caps, m.pos, j);
      }
      n := n + 1;
    }
  }

  /** ... and along all of them. */
  lemma {:induction false} PathRep(x: Ctx, back: bool, p: Plan, caps: seq<int>, i: nat, j: nat, n: nat)
    requires p.Rep? && Allowed(p, n) && Path(x, back, Once(p.r, p.cc), caps, i, j, n) && i <= |x.text|
    ensures Leads(x, back, p, caps, i, j)
    decreases n
  {
    hide All, NodeResults, Path;
    var s, q, once := Res(i, caps), Res(j, caps), Once(p.r, p.cc);
    if n == 0 {
      PathNone(x, back, once, caps, i, j);
    } else {
      var k := PathFirst(x, back, once, caps, i, j, n);
      ResultsLater(x, back, once, s);
      assert Later(x, back, s, Res(k, caps));
      var rs := Results(x, back, once, s);
      if p.min > 0 {
        var next := p.(min := p.min - 1);
        PathRep(x, back, next, caps, k, j, n - 1);
        AllHas(x, back, next, rs, Res(k, caps), q);
      } else if p.unbounded {
        var rep := Rep(p.r, p.cc, 0, 0, true, p.greedy);
        PathRep(x, back, rep, caps, k, j, n - 1);
        if k == i {
          RepOpt(x, back, p, s);
        } else {
          AllHas(x, back, Again(p.r, p.cc, p.greedy, Room(x, back, i)), rs, Res(k, caps), q);
        }
      } else {
        var next := p.(opt := p.opt - 1);
        PathRep(x, back, next, caps, k, j, n - 1);
        AllHas(x, back, next, rs, Res(k, caps), q);
      }
    }
  }

  lemma RepOpt(x: Ctx, back: bool, p: Plan, s: Res)
    requires p.Rep? && p.min == 0 && p.unbounded
    ensures Results(x, back, p, s) == Results(x, back, Rep(p.r, p.cc, 0, 0, true, p.greedy), s)
  {
    hide All, NodeResults;
  }

  lemma PathNone(x: Ctx, back: bool, p: Plan, caps: seq<int>, i: nat, j: nat)
    requires Path(x, back, p, caps, i, j, 0)
    ensures i == j
  {
  }

  lemma PathFirst(x: Ctx, back: bool, p: Plan, caps: seq<int>, i: nat, j: nat, n: nat) returns (k: nat)
    requires n > 0 && Path(x, back, p, caps, i, j, n)
    ensures Leads(x, back, p, caps, i, k) && Path(x, back, p, caps, k, j, n - 1)
  {
    k :| Leads(x, back, p, caps, i, k) && Path(x, back, p, caps, k, j, n - 1);
  }

  /** Both directions lead through the same pairs of positions. */
  ghost predicate Mirrors(x: Ctx, p: Plan, caps: seq<int>) {
    forall i: nat, j: nat :: i <= |x.text| && j <= |x.text| ==> (Leads(x, false, p, caps, i, j) <==> Leads(x, true, p, caps, j, i))
  }

  lemma LeadsIn(x: Ctx, back: bool, p: Plan, caps: seq<int>, i: nat, j: nat)
    requires Leads(x, back, p, caps, i, j) && i <= |x.text|
    ensures j <= |x.text|
  {
    hide Results;
    ResultsLater(x, back, p, Res(i, caps));
    assert Later(x, back, Res(i, caps), Res(j, caps));
  }

  lemma {:induction false} PathMirrors(x: Ctx, p: Plan, caps: seq<int>, i: nat, j: nat, n: nat, back: bool)
    requires Mirrors(x, p, caps) && i <= |x.text| && j <= |x.text| && Path(x, back, p, caps, i, j, n)
    ensures Path(x, !back, p, caps, j, i, n)
    decreases n
  {
    hide Leads;
    if n > 0 {
      var k: nat :| Leads(x, back, p, caps, i, k) && Path(x, back, p, caps, k, j, n - 1);
      LeadsIn(x, back, p, caps, i, k);
      PathMirrors(x, p, caps, k, j, n - 1, back);
      assert Leads(x, !back, p, caps, k, i);
      PathLast(x, !back, p, caps, j, i, n);
    }
  }

  lemma RepMirrors(x: Ctx, p: Plan, caps: seq<int>)
    requires p.Rep? && Mirrors(x, Once(p.r, p.cc), caps)
    requires Keeps(x, false, Once(p.r, p.cc), caps) && Keeps(x, true, Once(p.r, p.cc), caps)
    ensures Mirrors(x, p, caps)
  {
    hide Leads, Path, Keeps;
    var once := Once(p.r, p.cc);
    forall i: nat, j: nat | i <= |x.text| && j <= |x.text| ensures Leads(x, false, p, caps, i, j) <==> Leads(x, true, p, caps, j, i) {
      if Leads(x, false, p, caps, i, j) {
        var n := RepPath(x, false, p, caps, i, j);
        PathMirrors(x, once, caps, i, j, n, false);
        PathRep(x, true, p, caps, j, i, n);
      }
      if Leads(x, true, p, caps, j, i) {
        var n := RepPath(x, true, p, caps, j, i);
        PathMirrors(x, once, caps, j, i, n, true);
        PathRep(x, false, p, caps, i, j, n);
      }
    }
  }

  lemma CatMirrors(x: Ctx, a: Node, b: Node, cc: nat, caps: seq<int>)
    requires Plain(a) && Plain(b)
    requires Mirrors(x, Once(a, cc), caps) && Mirrors(x, Once(b, cc + NCaps(a)), caps)
    ensures Mirrors(x, Once(Cat(a, b), cc), caps)
  {
    hide Results, All, Keeps;
    var pa, pb := Once(a, cc), Once(b, cc + NCaps(a));
    NodeKeeps(x, false, a, cc, caps);
    NodeKeeps(x, true, b, cc + NCaps(a), caps);
    forall i: nat, j: nat | i <= |x.text| && j <= |x.text|
      ensures Leads(x, false, Once(Cat(a, b), cc), caps, i, j) <==> Leads(x, true, Once(Cat(a, b), cc), caps, j, i)
    {
      CatResults(x, false, a, b, cc, Res(i, caps));
      CatResults(x, true, a, b, cc, Res(j, caps));
      ThenLeads(x, false, pa, pb, caps, i, j);
      ThenLeads(x, true, pb, pa, caps, j, i);
      if k: nat :| Leads(x, false, pa, caps, i, k) && Leads(x, false, pb, caps, k, j) {
        LeadsIn(x, false, pa, caps, i, k);
        assert Leads(x, true, pb, caps, j, k) && Leads(x, true, pa, caps, k, i);
      }
      if k: nat :| Leads(x, true, pb, caps, j, k) && Leads(x, true, pa, caps, k, i) {
        LeadsIn(x, true, pb, caps, j, k);
        assert Leads(x, false, pa, caps, i, k) && Leads(x, false, pb, caps, k, j);
      }
    }
  }

  lemma LeafMirrors(x: Ctx, r: Node, cc: nat, caps: seq<int>)
    requires !r.BackRef? && !r.Group? && !r.Cat? && !r.Alt? && !r.Look? && !r.Quant?
    ensures Mirrors(x, Once(r, cc), caps)
  {
    hide Results, Accepts;
    forall i: nat, j: nat | i <= |x.text| && j <= |x.text|
      ensures Leads(x, false, Once(r, cc), caps, i, j) <==> Leads(x, true, Once(r, cc), caps, j, i)
    {
      if r.Chr? || r.AnyChar? || r.Class? {
        CharResults(x, false, r, cc, Res(i, caps));
        CharResults(x, true, r, cc, Res(j, caps));
      } else {
        TestResults(x, false, r, cc, Res(i, caps));
        TestResults(x, true, r, cc, Res(j, caps));
      }
    }
  }

  /** Lookbehind reversal. */
  lemma {:induction false} Reversal(x: Ctx, r: Node, cc: nat, caps: seq<int>)
    requires Plain(r)
    ensures forall i: nat, j: nat :: i <= |x.text| && j <= |x.text| ==>
      (Leads(x, false, Once(r, cc), caps, i, j) <==> Leads(x, true, Once(r, cc), caps, j, i))
    decreases r
  {
    hide Results, All, Keeps;
    match r
    case Cat(a, b) =>
      Reversal(x, a, cc, caps);
      Reversal(x, b, cc + NCaps(a), caps);
      CatMirrors(x, a, b, cc, caps);
      assert Mirrors(x, Once(r, cc), caps);
    case Alt(a, b) =>
      Reversal(x, a, cc, caps);
      Reversal(x, b, cc + NCaps(a), caps);
      forall i: nat, j: nat | i <= |x.text| && j <= |x.text|
        ensures Leads(x, false, Once(r, cc), caps, i, j) <==> Leads(x, true, Once(r, cc), caps, j, i)
      {
        AltResults(x, false, a, b, cc, Res(i, caps));
        AltResults(x, true, a, b, cc, Res(j, caps));
        assert Leads(x, false, Once(a, cc), caps, i, j) <==> Leads(x, true, Once(a, cc), caps, j, i);
        assert Leads(x, false, Once(b, cc + NCaps(a)), caps, i, j) <==> Leads(x, true, Once(b, cc + NCaps(a)), caps, j, i);
      }
    case Look(negative, behind, b) =>
      NodeKeeps(x, behind, b, cc, caps);
      forall i: nat, j: nat | i <= |x.text| && j <= |x.text|
        ensures Leads(x, false, Once(r, cc), caps, i, j) <==> Leads(x, true, Once(r, cc), caps, j, i)
      {
        LookStays(x, false, negative, behind, b, cc, caps, i);
        LookStays(x, true, negative, behind, b, cc, caps, j);
      }
    case Quant(b, min, max, greedy) =>
      Reversal(x, b, cc, caps);
      NodeKeeps(x, false, b, cc, caps);
      NodeKeeps(x, true, b, cc, caps);
      PlainHasNoCaps(b);
      var p := RepOf(b, cc, min, max, greedy);
      assert Mirrors(x, Once(b, cc), caps);
      RepMirrors(x, p, caps);
      forall i: nat, j: nat | i <= |x.text| && j <= |x.text|
        ensures Leads(x, false, Once(r, cc), caps, i, j) <==> Leads(x, true, Once(r, cc), caps, j, i)
      {
        QuantResults(x, false, b, min, max, greedy, cc, Res(i, caps));
        QuantResults(x, true, b, min, max, greedy, cc, Res(j, caps));
        assert Leads(x, false, p, caps, i, j) <==> Leads(x, true, p, caps, j, i);
      }
    case BackRef(_) =>
    case Group(_) =>
    case _ =>
      LeafMirrors(x, r, cc, caps);
      assert Mirrors(x, Once(r, cc), caps);
  }

  lemma LookStays(x: Ctx, back: bool, negative: bool, behind: bool, b: Node, cc: nat, caps: seq<int>, i: nat)
    requires Keeps(x, behind, Once(b, cc), caps)
    ensures Results(x, back, Once(Look(negative, behind, b), cc), Res(i, caps))
      == If((Results(x, behind, Once(b, cc), Res(i, caps)) == []) == negative, Res(i, caps))
  {
    hide Results;
    LookResults(x, back, negative, behind, b, cc, Res(i, caps));
    var inner := Results(x, behind, Once(b, cc), Res(i, caps));
    if inner != [] { assert inner[0] in inner; }
  }

  /** A lookbehind holds at `j` exactly when its pattern, matched forward from
      some earlier position, can end at `j`. */
  lemma LookbehindMeaning(x: Ctx, back: bool, negative: bool, r: Node, cc: nat, caps: seq<int>, j: nat)
    requires Plain(r) && j <= |x.text|
    ensures Results(x, back, Once(Look(negative, true, r), cc), Res(j, caps))
      == If((exists i: nat :: i <= j && Leads(x, false, Once(r, cc), caps, i, j)) != negative, Res(j, caps))
  {
    hide Results, Keeps;
    NodeKeeps(x, true, r, cc, caps);
    LookStays(x, back, negative, true, r, cc, caps, j);
    Reversal(x, r, cc, caps);
    var s, inner := Res(j, caps), Results(x, true, Once(r, cc), Res(j, caps));
    if inner != [] {
      var q := inner[0];
      KeptCaps(x, true, Once(r, cc), caps, s, q);
      ResultsLater(x, true, Once(r, cc), s);
      assert q == Res(q.pos, caps) && Later(x, true, s, q);
      assert Leads(x, true, Once(r, cc), caps, j, q.pos);
      assert Leads(x, false, Once(r, cc), caps, q.pos, j);
    }
    if i: nat :| i <= j && Leads(x, false, Once(r, cc), caps, i, j) {
      assert Leads(x, true, Once(r, cc), caps, j, i);
    }
  }

  lemma KeptCaps(x: Ctx, back: bool, p: Plan, caps: seq<int>, s: Res, q: Res)
    requires Keeps(x, back, p, caps) && s.caps == caps && q in Results(x, back, p, s)
    ensures q.caps == caps
  {
    hide Results;
  }
}
