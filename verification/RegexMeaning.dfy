/** What a pattern without captures and back references matches, said of the
    subject alone, and in which order repetitions are tried. */
module RegexMeaning {
  import opened RegexSyntax
  import opened RegexSemantics
  import opened RegexEquations
  import opened Bytecode
  import opened RegexEmit
  import opened RegexProgress
  import opened RegexCorrectness
  import opened RegexReversal
  import opened RegexAlone

  predicate LineEnd(c: int) { c == 10 || c == 13 || c == 0x2028 || c == 0x2029 }

  /** A letter, a digit or an underscore. */
  predicate Wordish(c: int) { (65 <= c <= 90) || (97 <= c <= 122) || (48 <= c <= 57) || c == 95 }

  /** A literal stands for itself; with the flag, for what has the same folding. */
  predicate Same(e: Env, a: int, b: int) {
    if e.ignoreCase then e.canon(a) == e.canon(b) else a == b
  }

  /** A place in the subject. */
  predicate Within(x: Ctx, k: nat) { k <= |x.text| }

  predicate Often(min: int, max: int, n: nat) { min <= n && (max == INF || n <= max) }

  /** The pattern matches the subject from i to j. */
  ghost predicate Matches(x: Ctx, r: Node, i: nat, j: nat)
    decreases r, 0
  {
    match r
    case Empty => i == j
    case Chr(c) => i < |x.text| && j == i + 1 && Same(x.env, x.text[i], c)
    case AnyChar => i < |x.text| && j == i + 1 && (x.env.dotall || !LineEnd(x.text[i]))
    case Class(points) =>
      i < |x.text| && j == i + 1 && InClass(points, if x.env.ignoreCase then x.env.canon(x.text[i]) else x.text[i])
    case Bol => i == j && (if i == 0 then !x.notBol else x.env.multiline && i <= |x.text| && LineEnd(x.text[i - 1]))
    case Eol => i == j && (if i == |x.text| then !x.notEol else x.env.multiline && i < |x.text| && LineEnd(x.text[i]))
    case WordB(negated) =>
      var before := if i == 0 then x.notBow else i <= |x.text| && Wordish(x.text[i - 1]);
      var after := if i >= |x.text| then x.notEow else Wordish(x.text[i]);
      i == j && (before != after) != negated
    case BackRef(_) => false
    case Group(_) => false
    case Cat(a, b) => exists k: nat {:trigger Within(x, k)} :: Within(x, k) && Matches(x, a, i, k) && Matches(x, b, k, j)
    case Alt(a, b) => Matches(x, a, i, j) || Matches(x, b, i, j)
    case Look(negative, behind, b) =>
      i == j && (exists k: nat {:trigger Within(x, k)} :: Within(x, k) && (if behind then Matches(x, b, k, i) else Matches(x, b, i, k))) != negative
    case Quant(b, min, max, _) => exists n: nat {:trigger Often(min, max, n)} :: Often(min, max, n) && Times(x, b, i, j, n)
  }

  /** n matches in a row lead from i to j. */
  ghost predicate Times(x: Ctx, r: Node, i: nat, j: nat, n: nat)
    decreases r, n + 1
  {
    if n == 0 then i == j else exists k: nat {:trigger Within(x, k)} :: Within(x, k) && Matches(x, r, i, k) && Times(x, r, k, j, n - 1)
  }

  /** The pattern and its plan agree. */
  ghost predicate Means(x: Ctx, r: Node, cc: nat, caps: seq<int>) {
    forall i: nat, j: nat :: i <= |x.text| ==> (Leads(x, false, Once(r, cc), caps, i, j) <==> j <= |x.text| && Matches(x, r, i, j))
  }

  /** The results of a plain pattern are its matches. */
  lemma {:induction false} Meaning(x: Ctx, r: Node, cc: nat, caps: seq<int>)
    requires Plain(r)
    ensures forall i: nat, j: nat :: i <= |x.text| ==> (Leads(x, false, Once(r, cc), caps, i, j) <==> j <= |x.text| && Matches(x, r, i, j))
    decreases r
  {
    hide Results, All, Keeps, Leads;
    match r
    case Cat(a, b) =>
      Meaning(x, a, cc, caps);
      Meaning(x, b, cc + NCaps(a), caps);
      CatMeans(x, a, b, cc, caps);
      assert Means(x, r, cc, caps);
    case Alt(a, b) =>
      Meaning(x, a, cc, caps);
      Meaning(x, b, cc + NCaps(a), caps);
      AltMeans(x, a, b, cc, caps);
      assert Means(x, r, cc, caps);
    case Look(negative, behind, b) =>
      Meaning(x, b, cc, caps);
      LookMeans(x, negative, behind, b, cc, caps);
      assert Means(x, r, cc, caps);
    case Quant(b, min, max, greedy) =>
      Meaning(x, b, cc, caps);
      QuantMeans(x, b, min, max, greedy, cc, caps);
      assert Means(x, r, cc, caps);
    case BackRef(_) =>
    case Group(_) =>
    case _ =>
      LeafMeans(x, r, cc, caps);
      assert Means(x, r, cc, caps);
  }

  lemma LeafMeans(x: Ctx, r: Node, cc: nat, caps: seq<int>)
    requires !r.BackRef? && !r.Group? && !r.Cat? && !r.Alt? && !r.Look? && !r.Quant?
    ensures Means(x, r, cc, caps)
  {
    hide Results, InClass;
    forall i: nat, j: nat | i <= |x.text| ensures Leads(x, false, Once(r, cc), caps, i, j) <==> j <= |x.text| && Matches(x, r, i, j) {
      if r.Chr? || r.AnyChar? || r.Class? {
        CharResults(x, false, r, cc, Res(i, caps));
      } else {
        TestResults(x, false, r, cc, Res(i, caps));
      }
    }
  }

  lemma CatMeans(x: Ctx, a: Node, b: Node, cc: nat, caps: seq<int>)
    requires Plain(a) && Plain(b) && Means(x, a, cc, caps) && Means(x, b, cc + NCaps(a), caps)
    ensures Means(x, Cat(a, b), cc, caps)
  {
    hide Results, All, Keeps;
    var pa, pb := Once(a, cc), Once(b, cc + NCaps(a));
    NodeKeeps(x, false, a, cc, caps);
    forall i: nat, j: nat | i <= |x.text|
      ensures Leads(x, false, Once(Cat(a, b), cc), caps, i, j) <==> j <= |x.text| && Matches(x, Cat(a, b), i, j)
    {
      CatResults(x, false, a, b, cc, Res(i, caps));
      ThenLeads(x, false, pa, pb, caps, i, j);
      if k: nat :| Leads(x, false, pa, caps, i, k) && Leads(x, false, pb, caps, k, j) {
        LeadsIn(x, false, pa, caps, i, k);
        LeadsIn(x, false, pb, caps, k, j);
        assert Within(x, k) && Matches(x, a, i, k) && Matches(x, b, k, j);
      }
      if j <= |x.text| && Matches(x, Cat(a, b), i, j) {
        var k: nat :| Within(x, k) && Matches(x, a, i, k) && Matches(x, b, k, j);
        assert Leads(x, false, pa, caps, i, k) && Leads(x, false, pb, caps, k, j);
      }
    }
  }

  lemma AltMeans(x: Ctx, a: Node, b: Node, cc: nat, caps: seq<int>)
    requires Means(x, a, cc, caps) && Means(x, b, cc + NCaps(a), caps)
    ensures Means(x, Alt(a, b), cc, caps)
  {
    hide Results;
    forall i: nat, j: nat | i <= |x.text|
      ensures Leads(x, false, Once(Alt(a, b), cc), caps, i, j) <==> j <= |x.text| && Matches(x, Alt(a, b), i, j)
    {
      AltResults(x, false, a, b, cc, Res(i, caps));
      assert Leads(x, false, Once(a, cc), caps, i, j) <==> j <= |x.text| && Matches(x, a, i, j);
      assert Leads(x, false, Once(b, cc + NCaps(a)), caps, i, j) <==> j <= |x.text| && Matches(x, b, i, j);
    }
  }

  lemma LookMeans(x: Ctx, negative: bool, behind: bool, b: Node, cc: nat, caps: seq<int>)
    requires Plain(b) && Means(x, b, cc, caps)
    ensures Means(x, Look(negative, behind, b), cc, caps)
  {
    hide Results, Keeps;
    NodeKeeps(x, behind, b, cc, caps);
    Reversal(x, b, cc, caps);
    forall i: nat, j: nat | i <= |x.text|
      ensures Leads(x, false, Once(Look(negative, behind, b), cc), caps, i, j) <==> j <= |x.text| && Matches(x, Look(negative, behind, b), i, j)
    {
      LookStays(x, false, negative, behind, b, cc, caps, i);
      SomeResult(x, behind, b, cc, caps, i);
    }
  }

  /** A look-around sees a match exactly when there is one. */
  lemma SomeResult(x: Ctx, behind: bool, b: Node, cc: nat, caps: seq<int>, i: nat)
    requires Plain(b) && Means(x, b, cc, caps) && i <= |x.text|
    ensures Results(x, behind, Once(b, cc), Res(i, caps)) != []
      <==> exists k: nat {:trigger Within(x, k)} :: Within(x, k) && (if behind then Matches(x, b, k, i) else Matches(x, b, i, k))
  {
    hide Results, Keeps;
    var p, s := Once(b, cc), Res(i, caps);
    NodeKeeps(x, behind, b, cc, caps);
    Reversal(x, b, cc, caps);
    var inner := Results(x, behind, p, s);
    if inner != [] {
      var q := inner[0];
      KeptCaps(x, behind, p, caps, s, q);
      ResultsLater(x, behind, p, s);
      assert q == Res(q.pos, caps) && Later(x, behind, s, q);
      assert Leads(x, behind, p, caps, i, q.pos);
      if behind { assert Leads(x, false, p, caps, q.pos, i); }
      assert Within(x, q.pos) && if behind then Matches(x, b, q.pos, i) else Matches(x, b, i, q.pos);
    }
    if k: nat :| Within(x, k) && (if behind then Matches(x, b, k, i) else Matches(x, b, i, k)) {
      if behind {
        assert Leads(x, false, p, caps, k, i);
        assert Leads(x, true, p, caps, i, k);
      } else {
        assert Leads(x, false, p, caps, i, k);
      }
    }
  }

  lemma {:induction false} PathIsTimes(x: Ctx, b: Node, cc: nat, caps: seq<int>, i: nat, j: nat, n: nat)
    requires Means(x, b, cc, caps) && i <= |x.text|
    ensures Path(x, false, Once(b, cc), caps, i, j, n) <==> Times(x, b, i, j, n)
    decreases n
  {
    hide Leads, Matches;
    if n > 0 {
      var p := Once(b, cc);
      if Path(x, false, p, caps, i, j, n) {
        var k: nat :| Leads(x, false, p, caps, i, k) && Path(x, false, p, caps, k, j, n - 1);
        LeadsIn(x, false, p, caps, i, k);
        PathIsTimes(x, b, cc, caps, k, j, n - 1);
        assert Within(x, k) && Matches(x, b, i, k);
      }
      if Times(x, b, i, j, n) {
        var k: nat :| Within(x, k) && Matches(x, b, i, k) && Times(x, b, k, j, n - 1);
        PathIsTimes(x, b, cc, caps, k, j, n - 1);
      }
    }
  }

  lemma {:induction false} TimesIn(x: Ctx, b: Node, i: nat, j: nat, n: nat)
    requires i <= |x.text| && Times(x, b, i, j, n)
    ensures j <= |x.text|
    decreases n
  {
    hide Matches;
    if n > 0 {
      var k: nat :| Within(x, k) && Matches(x, b, i, k) && Times(x, b, k, j, n - 1);
      TimesIn(x, b, k, j, n - 1);
    }
  }

  lemma QuantMeans(x: Ctx, b: Node, min: int, max: int, greedy: bool, cc: nat, caps: seq<int>)
    requires Plain(Quant(b, min, max, greedy)) && Means(x, b, cc, caps)
    ensures Means(x, Quant(b, min, max, greedy), cc, caps)
  {
    hide Leads, Path, Keeps, Times, Results;
    var r, p := Quant(b, min, max, greedy), RepOf(b, cc, min, max, greedy);
    NodeKeeps(x, false, b, cc, caps);
    PlainHasNoCaps(b);
    forall i: nat, j: nat | i <= |x.text| ensures Leads(x, false, Once(r, cc), caps, i, j) <==> j <= |x.text| && Matches(x, r, i, j) {
      QuantResults(x, false, b, min, max, greedy, cc, Res(i, caps));
      SameLeads(x, Once(r, cc), p, caps, i, j);
      if Leads(x, false, p, caps, i, j) {
        var n := RepPath(x, false, p, caps, i, j);
        PathIsTimes(x, b, cc, caps, i, j, n);
        TimesIn(x, b, i, j, n);
        assert Often(min, max, n);
      }
      if Matches(x, r, i, j) {
        var n: nat :| Often(min, max, n) && Times(x, b, i, j, n);
        PathIsTimes(x, b, cc, caps, i, j, n);
        PathRep(x, false, p, caps, i, j, n);
      }
    }
  }

  lemma SameLeads(x: Ctx, p: Plan, q: Plan, caps: seq<int>, i: nat, j: nat)
    requires Results(x, false, p, Res(i, caps)) == Results(x, false, q, Res(i, caps))
    ensures Leads(x, false, p, caps, i, j) <==> Leads(x, false, q, caps, i, j)
  {
  }

  /** Compiled code, run alone from i, offers j exactly when the pattern matches the
      subject from i to j. */
  lemma CodeMeaning(x: Ctx, r: Node, cc: nat, caps: seq<int>, i: nat, j: nat)
    requires Plain(r) && WellFormed(r) && WellFormedCtx(x) && Supported(x, false, r, cc) && i <= |x.text|
    requires AllEncodable(Emit(x.env, r, false, cc))
    ensures CodeOffers(x, false, r, cc, Res(i, caps), Res(j, caps)) <==> j <= |x.text| && Matches(x, r, i, j)
  {
    hide Results, Emit, Encodable, Supported, WellFormed, WellFormedCtx, CodeOffers, Matches;
    CodeOffersResults(x, false, r, cc, Res(i, caps), Res(j, caps));
    Meaning(x, r, cc, caps);
    assert Leads(x, false, Once(r, cc), caps, i, j) <==> j <= |x.text| && Matches(x, r, i, j);
  }

  // Order

  /** Ends in the order in which they are tried: the far ones first for a greedy
      loop, the near ones first for a lazy one. */
  predicate InOrder(greedy: bool, rs: seq<Res>) {
    forall a, b :: 0 <= a < b < |rs| ==> if greedy then rs[a].pos > rs[b].pos else rs[a].pos < rs[b].pos
  }

  lemma {:induction false} RoundsInOrder(x: Ctx, p: Plan, s: Res)
    requires !p.Once? && (p.r.Chr? || p.r.AnyChar? || p.r.Class?)
    ensures InOrder(p.greedy, Results(x, false, p, s)) && forall q :: q in Results(x, false, p, s) ==> s.pos <= q.pos
    decreases Count(p), Fuel(x, false, p, s.pos)
  {
    hide NodeResults, All, Accepts;
    var once := Once(p.r, p.cc);
    CharResults(x, false, p.r, p.cc, s);
    var here := Results(x, false, once, s);
    match p
    case Rep(r, cc, min, opt, unbounded, greedy) =>
      if min > 0 || unbounded || opt > 0 {
        var next := if min > 0 then Rep(r, cc, min - 1, opt, unbounded, greedy)
                    else if unbounded then Again(r, cc, greedy, Room(x, false, s.pos))
                    else Rep(r, cc, 0, opt - 1, false, greedy);
        if here != [] {
          assert here == [s.(pos := s.pos + 1)];
          RoundsInOrder(x, next, here[0]);
          OneAll(x, next, here[0]);
        } else {
          NoneAll(x, next);
        }
      }
    case Again(r, cc, greedy, room) =>
      if Room(x, false, s.pos) < room { RoundsInOrder(x, Rep(r, cc, 0, 0, true, greedy), s); }
  }

  lemma OneAll(x: Ctx, p: Plan, s: Res)
    ensures All(x, false, p, [s]) == Results(x, false, p, s)
  {
    hide Results;
    assert [s][1..] == [];
    assert All(x, false, p, []) == [];
  }

  lemma NoneAll(x: Ctx, p: Plan)
    ensures All(x, false, p, []) == []
  {
  }

  /** Repetitions of a character are tried from the longest to the shortest when
      greedy, and the other way round when lazy. */
  lemma GreedyOrder(x: Ctx, b: Node, min: int, max: int, greedy: bool, cc: nat, s: Res)
    requires (b.Chr? || b.AnyChar? || b.Class?) && 0 <= min <= max
    ensures InOrder(greedy, Results(x, false, Once(Quant(b, min, max, greedy), cc), s))
  {
    hide Results;
    QuantResults(x, false, b, min, max, greedy, cc, s);
    RoundsInOrder(x, Rep(b, cc, min, if max == INF then 0 else max - min, max == INF, greedy), s);
  }
}
