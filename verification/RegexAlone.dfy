/** Emitted code that stands alone: what it offers at its end, one match after
    the other, is what the pattern matches. For plain patterns the code of one
    direction offers what the code of the other direction undoes. */
module RegexAlone {
  import opened RegexSyntax
  import opened RegexSemantics
  import opened Bytecode
  import opened RegexEmit
  import opened RegexMachine
  import opened RegexDelivery
  import opened RegexProgress
  import opened RegexCorrectness
  import opened RegexReversal

  /** The machine comes to the end of the code with the match q, after m earlier
      arrivals each of which was answered with a failure. */
  ghost predicate Offered(x: Ctx, code: Code, s: State, q: Res, m: nat)
    decreases m
  {
    if m == 0 then exists stack, saved :: Reaches(x, code, s, Run(code.len, q.pos, q.caps, stack, saved))
    else exists r: Res, stack, saved :: Reaches(x, code, s, Run(code.len, r.pos, r.caps, stack, saved)) && Offered(x, code, Fail(saved), q, m - 1)
  }

  ghost predicate OfferedOnce(x: Ctx, code: Code, s: State, q: Res) {
    exists m: nat :: Offered(x, code, s, q, m)
  }

  /** The code of a pattern in one direction, run alone from a position, offers
      a match in the end. */
  ghost predicate CodeOffers(x: Ctx, back: bool, r: Node, cc: nat, s: Res, q: Res)
    requires AllEncodable(Emit(x.env, r, back, cc))
  {
    OfferedOnce(x, Alone(x.env, back, r, cc), Run(0, s.pos, s.caps, [], []), q)
  }

  function Alone(e: Env, back: bool, r: Node, cc: nat): Code
    requires AllEncodable(Emit(e, r, back, cc))
  {
    Load(Encode(Emit(e, r, back, cc)))
  }

  /** A state that no step leaves. */
  lemma {:induction false} StuckStays(x: Ctx, code: Code, s: State, n: nat)
    requires Step(x, code, s) == s
    ensures Steps(x, code, s, n) == s
    decreases n
  {
    if n > 0 { StuckStays(x, code, s, n - 1); }
  }

  /** The machine has one future: of two states that it reaches and whose next
      state is final, both are the same unless one is that final state. */
  lemma OneFuture(x: Ctx, code: Code, s: State, a: State, b: State)
    requires Reaches(x, code, s, a) && Reaches(x, code, s, b)
    requires var a', b' := Step(x, code, a), Step(x, code, b);
      Step(x, code, a') == a' && Step(x, code, b') == b' && a != b' && b != a'
    ensures a == b
  {
    hide Step;
    var n: nat :| Steps(x, code, s, n) == a;
    var m: nat :| Steps(x, code, s, m) == b;
    if n < m {
      FinalLater(x, code, s, n, m);
    } else if m < n {
      FinalLater(x, code, s, m, n);
    }
  }

  lemma FinalLater(x: Ctx, code: Code, s: State, n: nat, m: nat)
    requires n < m
    requires var a' := Step(x, code, Steps(x, code, s, n)); Step(x, code, a') == a'
    ensures Steps(x, code, s, m) == Step(x, code, Steps(x, code, s, n))
  {
    hide Step;
    StepsAdd(x, code, s, n, m - n);
    var a := Steps(x, code, s, n);
    assert Steps(x, code, a, m - n) == Steps(x, code, Step(x, code, a), m - n - 1);
    StuckStays(x, code, Step(x, code, a), m - n - 1);
  }

  lemma EndStops(x: Ctx, code: Code, pos: nat, caps: seq<int>, stack: seq<int>, saved: seq<Saved>)
    requires code.fetch(code.len) == Bad
    ensures Step(x, code, Run(code.len, pos, caps, stack, saved)) == Stuck && Step(x, code, Stuck) == Stuck
  {
  }

  /** Offers are the matches delivered. */
  lemma {:induction false} OffersDelivered(x: Ctx, code: Code, s: State, rs: seq<Res>, q: Res)
    requires code.fetch(code.len) == Bad && Delivers(Reachable(x, code), s, rs, code.len, [], [])
    ensures OfferedOnce(x, code, s, q) <==> q in rs
    decreases |rs|
  {
    hide Delivers, Offered, Reaches, Step, Discardable;
    if rs == [] {
      DeliversNil(Reachable(x, code), s, code.len, [], []);
      forall m: nat ensures !Offered(x, code, s, q, m) { NothingOffered(x, code, s, q, m); }
    } else {
      var t := OfferOf(Reachable(x, code), s, rs, code.len, [], []);
      assert [] + t == t;
      OffersDelivered(x, code, Fail(t), rs[1..], q);
      FirstOffer(x, code, s, rs[0], [], t, q);
    }
  }

  lemma NothingOffered(x: Ctx, code: Code, s: State, q: Res, m: nat)
    requires code.fetch(code.len) == Bad && Reaches(x, code, s, Fail([]))
    ensures !Offered(x, code, s, q, m)
  {
    forall r: Res, stack, saved ensures !Reaches(x, code, s, Run(code.len, r.pos, r.caps, stack, saved)) {
      hide Reaches;
      if Reaches(x, code, s, Run(code.len, r.pos, r.caps, stack, saved)) {
        EndStops(x, code, r.pos, r.caps, stack, saved);
        OneFuture(x, code, s, Run(code.len, r.pos, r.caps, stack, saved), Fail([]));
      }
    }
  }

  /** The first offer is the only state at the end that is reached without a
      failure in between. */
  lemma FirstOffer(x: Ctx, code: Code, s: State, r: Res, stack: seq<int>, saved: seq<Saved>, q: Res)
    requires code.fetch(code.len) == Bad && Reaches(x, code, s, Run(code.len, r.pos, r.caps, stack, saved))
    ensures OfferedOnce(x, code, s, q) <==> q == r || OfferedOnce(x, code, Fail(saved), q)
  {
    hide Reaches, Step;
    var a := Run(code.len, r.pos, r.caps, stack, saved);
    forall b: State | b.Run? && b.pc == code.len && Reaches(x, code, s, b) ensures b == a {
      EndStops(x, code, r.pos, r.caps, stack, saved);
      EndStops(x, code, b.pos, b.caps, b.stack, b.saved);
      OneFuture(x, code, s, a, b);
    }
    if m: nat :| Offered(x, code, s, q, m) {
      if m > 0 { assert Offered(x, code, Fail(saved), q, m - 1); }
    }
    if q == r { assert Offered(x, code, s, q, 0); }
    if m: nat :| Offered(x, code, Fail(saved), q, m) { assert Offered(x, code, s, q, m + 1); }
  }

  /** Emitted code, run alone, offers exactly the matches of the pattern. */
  lemma CodeOffersResults(x: Ctx, back: bool, r: Node, cc: nat, s: Res, q: Res)
    requires WellFormed(r) && WellFormedCtx(x) && Supported(x, back, r, cc) && InText(x, s)
    requires AllEncodable(Emit(x.env, r, back, cc))
    ensures CodeOffers(x, back, r, cc, s, q) <==> q in Results(x, back, Once(r, cc), s)
  {
    hide Results, Emit, Encode, Encodable, Supported, WellFormed, WellFormedCtx, Runs, Delivers, At, Len, OfferedOnce;
    var c := Emit(x.env, r, back, cc);
    var bytes, code := Encode(c), Alone(x.env, back, r, cc);
    EncodeLen(c);
    AloneAt(c);
    ReachesRuns(x, code);
    NodePlays(Reachable(x, code), x, code, back, r, cc, 0);
    assert Plays(Reachable(x, code), x, back, Once(r, cc), s, 0, [], Len(c), [], []);
    OffersDelivered(x, code, Run(0, s.pos, s.caps, [], []), Results(x, back, Once(r, cc), s), q);
  }

  lemma AloneAt(c: seq<Instr>)
    requires AllEncodable(c)
    ensures var code := Load(Encode(c));
      At(code, 0, c) && code.fetch(code.len) == Bad
  {
    hide Encode, Encodable;
    AtStored(Encode(c), 0, c);
  }

  /** Backward code undoes forward code: started at j it offers i exactly when
      the forward code started at i offers j. */
  lemma CodeReversal(x: Ctx, r: Node, cc: nat, caps: seq<int>, i: nat, j: nat)
    requires Plain(r) && WellFormed(r) && WellFormedCtx(x) && i <= |x.text| && j <= |x.text|
    requires Supported(x, false, r, cc) && Supported(x, true, r, cc)
    requires AllEncodable(Emit(x.env, r, false, cc)) && AllEncodable(Emit(x.env, r, true, cc))
    ensures CodeOffers(x, true, r, cc, Res(j, caps), Res(i, caps)) <==> CodeOffers(x, false, r, cc, Res(i, caps), Res(j, caps))
  {
    hide Results, Emit, Encodable, Supported, WellFormed, WellFormedCtx, CodeOffers;
    CodeOffersResults(x, true, r, cc, Res(j, caps), Res(i, caps));
    CodeOffersResults(x, false, r, cc, Res(i, caps), Res(j, caps));
    Reversal(x, r, cc, caps);
    assert Leads(x, false, Once(r, cc), caps, i, j) <==> Leads(x, true, Once(r, cc), caps, j, i);
  }
}
