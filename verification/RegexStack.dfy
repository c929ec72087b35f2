/** The counter stack of compiled code: the depth that compute_stack_size finds
    by a linear scan is the depth at every jump target too. */
module RegexTyping {
  import opened RegexSyntax
  import opened Bytecode
  import opened RegexEmit
  import opened RegexCorrectness

  predicate Jumps(i: Instr) { HasDisp(i) || i.SimpleGreedyQuant? }

  predicate Pops(i: Instr) { i.Drop? || i.BneCharPos? || i.Loop? }

  /** The instruction at index `k` finds what it pops, and its target is the
      start of the instruction `j` at the same depth. */
  ghost predicate TypedTo(c: seq<Instr>, k: nat, j: nat)
    requires k < |c|
  {
    && (Pops(c[k]) ==> Depth(c[..k]) >= 1)
    && (Jumps(c[k]) ==> j <= |c| && Len(c[..j]) == Len(c[..k + 1]) + c[k].off && Depth(c[..j]) == Depth(c[..k + 1]))
    && (c[k].SimpleGreedyQuant? ==> k + 1 < j && c[j - 1].Match? && SimpleCount(c[k + 1..j - 1]) == c[k].count > 0
                                    && 0 <= c[k].qmin <= c[k].qmax <= INF && c[k].qmax > 0)
  }

  ghost predicate TypedAt(c: seq<Instr>, k: nat)
    requires k < |c|
  {
    exists j: nat :: TypedTo(c, k, j)
  }

  ghost predicate Typed(c: seq<Instr>) {
    forall k: nat :: k < |c| ==> TypedAt(c, k)
  }

  lemma {:induction false} DepthConcat(a: seq<Instr>, b: seq<Instr>)
    ensures Depth(a + b) == Depth(a) + Depth(b)
    decreases |b|
  {
    if b == [] {
      assert a + b == a;
    } else {
      assert (a + b)[..|a + b| - 1] == a + b[..|b| - 1];
      DepthConcat(a, b[..|b| - 1]);
    }
  }

  lemma Depth1(i: Instr)
    ensures Depth([i]) == Effect(i)
  {
    assert [i][..0] == [];
  }

  lemma NextIndex(c: seq<Instr>, k: nat)
    requires k < |c|
    ensures Len(c[..k + 1]) == Len(c[..k]) + Size(c[k])
    ensures Depth(c[..k + 1]) == Depth(c[..k]) + Effect(c[k])
  {
    assert c[..k + 1] == c[..k] + [c[k]];
    LenSnoc(c[..k], c[k]);
    DepthConcat(c[..k], [c[k]]);
    Depth1(c[k]);
  }

  /** Typing survives in any context of non-negative depth. */
  lemma TypedInside(pre: seq<Instr>, a: seq<Instr>, post: seq<Instr>, k: nat)
    requires k < |a| && TypedAt(a, k) && Depth(pre) >= 0
    ensures TypedAt(pre + a + post, |pre| + k)
  {
    hide Len, Depth, SimpleCount;
    var c := pre + a + post;
    var j: nat :| TypedTo(a, k, j);
    var n := |pre|;
    assert c[..n + k] == pre + a[..k];
    assert c[..n + k + 1] == pre + a[..k + 1];
    assert c[n + k] == a[k];
    DepthConcat(pre, a[..k]);
    DepthConcat(pre, a[..k + 1]);
    LenConcat(pre, a[..k + 1]);
    if Jumps(a[k]) {
      assert c[..n + j] == pre + a[..j];
      DepthConcat(pre, a[..j]);
      LenConcat(pre, a[..j]);
      if a[k].SimpleGreedyQuant? {
        assert c[n + k + 1..n + j - 1] == a[k + 1..j - 1];
        assert c[n + j - 1] == a[j - 1];
      }
    }
    assert TypedTo(c, n + k, n + j);
  }

  lemma AllInside(pre: seq<Instr>, a: seq<Instr>, post: seq<Instr>)
    requires Typed(a) && Depth(pre) >= 0
    ensures forall k: nat :: |pre| <= k < |pre| + |a| ==> TypedAt(pre + a + post, k)
  {
    hide TypedAt, Depth;
    forall k: nat | |pre| <= k < |pre| + |a| ensures TypedAt(pre + a + post, k) {
      assert TypedAt(a, k - |pre|);
      TypedInside(pre, a, post, k - |pre|);
    }
  }

  lemma TypedConcat(a: seq<Instr>, b: seq<Instr>)
    requires Typed(a) && Typed(b) && Depth(a) == 0
    ensures Typed(a + b) && Depth(a + b) == Depth(b)
  {
    hide TypedAt, Depth;
    DepthConcat(a, b);
    assert Depth([]) == 0 by { DepthNil(); }
    AllInside([], a, b);
    AllInside(a, b, []);
    assert [] + a + b == a + b && a + b + [] == a + b;
  }

  lemma DepthNil() ensures Depth([]) == 0 {}

  lemma TypedPlain(i: Instr)
    requires !Jumps(i) && !Pops(i)
    ensures Typed([i])
  {
    assert TypedTo([i], 0, 0);
  }

  lemma DepthThree(pre: seq<Instr>, a: seq<Instr>, post: seq<Instr>)
    ensures Depth(pre + a + post) == Depth(pre) + Depth(a) + Depth(post)
    ensures Len(pre + a + post) == Len(pre) + Len(a) + Len(post)
  {
    DepthConcat(pre + a, post);
    DepthConcat(pre, a);
    LenConcat(pre + a, post);
    LenConcat(pre, a);
  }

  lemma Pair(i: Instr, j: Instr)
    ensures Len([i, j]) == Size(i) + Size(j) && Depth([i, j]) == Effect(i) + Effect(j)
  {
    assert [i, j] == [i] + [j];
    LenSnoc([i], j);
    Len1(i);
    DepthConcat([i], [j]);
    Depth1(i);
    Depth1(j);
  }

  /** A framed body whose frame is typed is typed. */
  lemma Framed(pre: seq<Instr>, a: seq<Instr>, post: seq<Instr>)
    requires Typed(a) && Depth(pre) >= 0
    requires forall k: nat :: k < |pre| ==> TypedAt(pre + a + post, k)
    requires forall k: nat :: |pre| + |a| <= k < |pre + a + post| ==> TypedAt(pre + a + post, k)
    ensures Typed(pre + a + post)
  {
    hide TypedAt, Depth;
    AllInside(pre, a, post);
  }

  lemma GroupTyped(i: Instr, body: seq<Instr>, j: Instr)
    requires Typed(body) && Depth(body) == 0 && !Jumps(i) && !Pops(i) && !Jumps(j) && !Pops(j) && Effect(i) == Effect(j) == 0
    ensures Typed([i] + body + [j]) && Depth([i] + body + [j]) == 0
  {
    hide Typed, Depth;
    TypedPlain(i);
    TypedPlain(j);
    Depth1(i);
    Depth1(j);
    TypedConcat([i], body);
    TypedConcat([i] + body, [j]);
  }

  /** A leading instruction that jumps to the end. */
  lemma SkipTyped(i: Instr, body: seq<Instr>, post: seq<Instr>)
    requires Typed(body) && Depth(body) == 0 && (post == [] || post == [Match])
    requires HasDisp(i) && !Pops(i) && i.off == Len(body) + Len(post)
    ensures Typed([i] + body + post) && Depth([i] + body + post) == 0
  {
    hide Depth, Len;
    var c := [i] + body + post;
    Depth1(i);
    if post == [] { DepthNil(); } else { Depth1(Match); }
    DepthThree([i], body, post);
    assert c[..1] == [i] && c[..|c|] == c;
    assert TypedTo(c, 0, |c|);
    if post == [Match] {
      assert c[|c| - 1] == Match;
      assert TypedTo(c, |c| - 1, 0);
    }
    Framed([i], body, post);
  }

  lemma AltTyped(ca: seq<Instr>, cb: seq<Instr>)
    requires Typed(ca) && Typed(cb) && Depth(ca) == 0 && Depth(cb) == 0
    ensures var c := [SplitNextFirst(Len(ca) + 5)] + ca + [Goto(Len(cb))] + cb;
      Typed(c) && Depth(c) == 0
  {
    hide Depth, Len, TypedAt;
    var i, j := SplitNextFirst(Len(ca) + 5), Goto(Len(cb));
    var c := [i] + ca + [j] + cb;
    var tail := [j] + cb + [];
    assert tail == [j] + cb;
    DepthNil();
    LenNil();
    SkipTyped(j, cb, []);
    Depth1(i);
    Len1(i);
    DepthConcat([i], ca);
    assert c == ([i] + ca) + tail;
    DepthConcat([i] + ca, tail);
    AllInside([i] + ca, tail, []);
    AllInside([i], ca, tail);
    assert [i] + ca + tail == c && ([i] + ca) + tail + [] == c;
    var m := |ca| + 2;
    Depth1(j);
    DepthThree([i], ca, [j]);
    Len1(j);
    assert c[..m] == [i] + ca + [j] && c[..1] == [i];
    SplitTyped(c, m);
  }

  lemma SplitTyped(c: seq<Instr>, m: nat)
    requires 0 < |c| && m <= |c| && HasDisp(c[0]) && !Pops(c[0])
    requires Len(c[..m]) == Len(c[..1]) + c[0].off && Depth(c[..m]) == Depth(c[..1])
    ensures TypedAt(c, 0)
  {
    assert TypedTo(c, 0, m);
  }

  /** A trailing pair of a jump back and a plain instruction, or the jump alone. */
  lemma BackTyped(c: seq<Instr>, k: nat, m: nat)
    requires k < |c| && m <= |c| && HasDisp(c[k]) && (Pops(c[k]) ==> Depth(c[..k]) >= 1)
    requires Len(c[..m]) == Len(c[..k + 1]) + c[k].off && Depth(c[..m]) == Depth(c[..k + 1])
    ensures TypedAt(c, k)
  {
    assert TypedTo(c, k, m);
  }

  lemma PlainTyped(c: seq<Instr>, k: nat)
    requires k < |c| && !Jumps(c[k]) && (Pops(c[k]) ==> Depth(c[..k]) >= 1)
    ensures TypedAt(c, k)
  {
    assert TypedTo(c, k, 0);
  }

  lemma StarTyped(a: seq<Instr>, greedy: bool, check: bool)
    requires Typed(a) && Depth(a) == 0
    ensures Typed(StarCode(a, greedy, check)) && Depth(StarCode(a, greedy, check)) == 0
  {
    hide Depth, Len, TypedAt;
    var n: int := Len(a);
    var s := Split(greedy, if check then n + 6 else n + 5);
    var z := if check then BneCharPos(-(n + 11)) else Goto(-(n + 10));
    var pre := if check then [s, PushCharPos] else [s];
    var c := StarCode(a, greedy, check);
    assert c == pre + a + [z];
    Depth1(s);
    Len1(s);
    Depth1(z);
    Len1(z);
    if check { Pair(s, PushCharPos); }
    DepthThree(pre, a, [z]);
    DepthConcat(pre, a);
    DepthNil();
    LenNil();
    var k := |c| - 1;
    assert c[..1] == [s] && c[..|c|] == c && c[..0] == [] && c[..k] == pre + a && c[..k + 1] == c;
    SplitTyped(c, |c|);
    BackTyped(c, k, 0);
    if check { PlainTyped(c, 1); }
    Framed(pre, a, [z]);
  }

  /** `push; split; atom; loop; drop` and `push; atom; loop; drop`. */
  lemma CountedTyped(v: int, split: seq<Instr>, a: seq<Instr>, d: int)
    requires Typed(a) && Depth(a) == 0
    requires split == [] || (|split| == 1 && HasDisp(split[0]) && !Pops(split[0]) && split[0].off == Len(a) + 5)
    requires d == -(Len(split) + Len(a) + 5)
    ensures var c := [PushI32(v)] + split + a + [Loop(d), Drop];
      Typed(c) && Depth(c) == 0
  {
    hide Depth, Len, TypedAt;
    var pre, post := [PushI32(v)] + split, [Loop(d), Drop];
    var c := pre + a + post;
    assert c == [PushI32(v)] + split + a + [Loop(d), Drop];
    Depth1(PushI32(v));
    Len1(PushI32(v));
    DepthConcat([PushI32(v)], split);
    LenConcat([PushI32(v)], split);
    if split == [] { DepthNil(); LenNil(); } else { assert split == [split[0]]; Depth1(split[0]); Len1(split[0]); }
    Pair(Loop(d), Drop);
    Depth1(Loop(d));
    Len1(Loop(d));
    DepthThree(pre, a, post);
    DepthThree(pre, a, [Loop(d)]);
    DepthConcat(pre, a);
    LenConcat(pre, a);
    var k := |pre| + |a|;
    assert c[..k] == pre + a && c[..k + 1] == pre + a + [Loop(d)] && c[..1] == [PushI32(v)];
    PlainTyped(c, 0);
    if split != [] {
      assert c[..2] == pre && c[1] == split[0];
      assert c[..k + 1] == pre + a + [Loop(d)];
      BackTyped(c, 1, k + 1);
    }
    BackTyped(c, k, 1);
    PlainTyped(c, k + 1);
    Framed(pre, a, post);
  }

  lemma PlusTyped(a: seq<Instr>, greedy: bool)
    requires Typed(a) && Depth(a) == 0
    ensures var c := a + [Split(!greedy, -(Len(a) + 5))];
      Typed(c) && Depth(c) == 0
  {
    hide Depth, Len, TypedAt;
    var i := Split(!greedy, -(Len(a) + 5));
    var c := [] + a + [i];
    assert c == a + [i];
    DepthNil();
    LenNil();
    Depth1(i);
    Len1(i);
    DepthThree([], a, [i]);
    assert c[..|a| + 1] == c && c[..0] == [];
    BackTyped(c, |a|, 0);
    Framed([], a, [i]);
  }

  lemma GreedyTyped(a: seq<Instr>, min: int, max: int)
    requires Typed(a) && Depth(a) == 0 && SimpleCount(a) > 0 && 0 <= min <= max <= INF && max > 0
    ensures var c := [SimpleGreedyQuant(Len(a) + 1, min, max, SimpleCount(a))] + (a + [Match]);
      Typed(c) && Depth(c) == 0
  {
    hide Depth, Len, SimpleCount;
    var i := SimpleGreedyQuant(Len(a) + 1, min, max, SimpleCount(a));
    var c := [i] + a + [Match];
    assert c == [i] + (a + [Match]);
    Depth1(i);
    Len1(i);
    Depth1(Match);
    Len1(Match);
    DepthThree([i], a, [Match]);
    assert c[..1] == [i] && c[..|c|] == c && c[1..|c| - 1] == a;
    assert TypedTo(c, 0, |c|);
    assert TypedTo(c, |c| - 1, 0);
    Framed([i], a, [Match]);
  }

  lemma ExactTyped(a: seq<Instr>, k: int)
    requires Typed(a) && Depth(a) == 0
    ensures Typed(ExactCode(a, k)) && Depth(ExactCode(a, k)) == 0
  {
    if k != 1 {
      LenNil();
      CountedTyped(k, [], a, -(Len(a) + 5));
      assert [PushI32(k)] + [] == [PushI32(k)];
    }
  }

  lemma UpToTyped(a: seq<Instr>, greedy: bool, k: int)
    requires Typed(a) && Depth(a) == 0
    ensures Typed(UpToCode(a, greedy, k)) && Depth(UpToCode(a, greedy, k)) == 0
  {
    hide Typed, Depth, Len;
    var s := Split(greedy, Len(a) + 5);
    Len1(s);
    CountedTyped(k, [s], a, -(Len(a) + 10));
    assert [PushI32(k)] + [s] == [PushI32(k), s];
  }

  lemma QuantTyped(a: seq<Instr>, first: int, last: int, min: int, max: int, greedy: bool)
    requires Typed(a) && Depth(a) == 0 && 0 <= min <= max <= INF
    ensures Typed(EmitQuant(a, first, last, min, max, greedy)) && Depth(EmitQuant(a, first, last, min, max, greedy)) == 0
  {
    hide Typed, Depth, Len, StarCode, UpToCode, ExactCode, NeedsCheck, SimpleCount;
    EmitQuantIs(a, first, last, min, max, greedy);
    var core := RepCode(a, min, max, greedy);
    RepTyped(a, min, max, greedy);
    if Resets(a, first, last, min, max, greedy) {
      TypedPlain(SaveReset(first, last));
      Depth1(SaveReset(first, last));
      TypedConcat([SaveReset(first, last)], core);
    } else {
      assert [] + core == core;
    }
  }

  lemma RepTyped(a: seq<Instr>, min: int, max: int, greedy: bool)
    requires Typed(a) && Depth(a) == 0 && 0 <= min <= max <= INF
    ensures Typed(RepCode(a, min, max, greedy)) && Depth(RepCode(a, min, max, greedy)) == 0
  {
    hide Typed, Depth, Len, StarCode, UpToCode, ExactCode, CheckAdvance, SimpleCount;
    var check := NeedsCheck(a, greedy);
    StarTyped(a, greedy, check);
    ExactTyped(a, min);
    if UsesGreedyOp(a, max, greedy) {
      GreedyTyped(a, min, max);
    } else if min == 0 {
      if max == 0 {
        TypedNil();
      } else if max == 1 {
        LenNil();
        SkipTyped(Split(greedy, Len(a)), a, []);
        assert [Split(greedy, Len(a))] + a + [] == [Split(greedy, Len(a))] + a;
      } else {
        UpToTyped(a, greedy, max);
      }
    } else if min == 1 && max == INF && !check {
      PlusTyped(a, greedy);
    } else if max == INF {
      TypedConcat(ExactCode(a, min), StarCode(a, greedy, check));
    } else if max > min {
      UpToTyped(a, greedy, max - min);
      TypedConcat(ExactCode(a, min), UpToCode(a, greedy, max - min));
    }
  }

  lemma TypedNil() ensures Typed([]) && Depth([]) == 0 {}

  /** All emitted code is typed and leaves the stack as deep as it was. */
  lemma {:induction false} EmitTyped(e: Env, r: Node, back: bool, cc: nat)
    requires WellFormed(r)
    ensures Typed(Emit(e, r, back, cc)) && Depth(Emit(e, r, back, cc)) == 0
    decreases r
  {
    hide Typed, Depth, Len, EmitQuant, EmitClass, Jumps, Pops, Effect;
    var c := Emit(e, r, back, cc);
    match r
    case Cat(a, b) =>
      EmitTyped(e, a, back, cc);
      EmitTyped(e, b, back, cc + NCaps(a));
      var ca, cb := Emit(e, a, back, cc), Emit(e, b, back, cc + NCaps(a));
      if back { TypedConcat(cb, ca); } else { TypedConcat(ca, cb); }
    case Alt(a, b) =>
      EmitTyped(e, a, back, cc);
      EmitTyped(e, b, back, cc + NCaps(a));
      AltTyped(Emit(e, a, back, cc), Emit(e, b, back, cc + NCaps(a)));
    case Group(b) =>
      EmitTyped(e, b, back, cc + 1);
      SaveTyped(back, cc, Emit(e, b, back, cc + 1));
    case Look(negative, behind, b) =>
      EmitTyped(e, b, behind, cc);
      LookTyped(negative, Emit(e, b, behind, cc));
    case Quant(b, min, max, greedy) =>
      EmitTyped(e, b, back, cc);
      QuantTyped(Emit(e, b, back, cc), cc, cc + NCaps(b) - 1, min, max, greedy);
    case _ => LeafTyped(e, r, back, cc);
  }

  lemma SaveTyped(back: bool, cc: nat, body: seq<Instr>)
    requires Typed(body) && Depth(body) == 0
    ensures var c := if back then [SaveEnd(cc)] + body + [SaveStart(cc)] else [SaveStart(cc)] + body + [SaveEnd(cc)];
      Typed(c) && Depth(c) == 0
  {
    hide Typed, Depth;
    GroupTyped(if back then SaveEnd(cc) else SaveStart(cc), body, if back then SaveStart(cc) else SaveEnd(cc));
  }

  lemma LookTyped(negative: bool, body: seq<Instr>)
    requires Typed(body) && Depth(body) == 0
    ensures var c := [if negative then NegativeLookahead(Len(body) + 1) else Lookahead(Len(body) + 1)] + body + [Match];
      Typed(c) && Depth(c) == 0
  {
    hide Typed, Depth, Len;
    Len1(Match);
    SkipTyped(if negative then NegativeLookahead(Len(body) + 1) else Lookahead(Len(body) + 1), body, [Match]);
  }

  lemma LeafTyped(e: Env, r: Node, back: bool, cc: nat)
    requires !r.Cat? && !r.Alt? && !r.Group? && !r.Look? && !r.Quant?
    ensures Typed(Emit(e, r, back, cc)) && Depth(Emit(e, r, back, cc)) == 0
  {
    hide Typed, Depth, EmitClass;
    if r.Empty? {
      TypedNil();
    } else if r.Chr? {
      var f := Fold(e, r.c);
      OneCharTyped(back, if f <= 0xffff then Char(f) else Char32(f));
    } else if r.AnyChar? {
      OneCharTyped(back, if e.dotall then Any else Dot);
    } else if r.Class? {
      ClassTyped(r.points);
      OneCharTyped(back, EmitClass(r.points));
    } else {
      var c := Emit(e, r, back, cc);
      TypedPlain(c[0]);
      Depth1(c[0]);
      assert c == [c[0]];
    }
  }

  lemma ClassTyped(points: seq<int>)
    ensures IsCharOp(EmitClass(points))
  {
  }

  lemma OneCharTyped(back: bool, i: Instr)
    requires IsCharOp(i)
    ensures Typed(OneChar(back, i)) && Depth(OneChar(back, i)) == 0
  {
    hide Typed, Depth;
    TypedPlain(i);
    Depth1(i);
    if back {
      TypedPlain(Prev);
      Depth1(Prev);
      TypedConcat([Prev], [i]);
      TypedConcat([Prev] + [i], [Prev]);
      assert [Prev] + [i] + [Prev] == [Prev, i, Prev];
    }
  }
}
