/** Character classes: the emitted range opcode accepts exactly the characters
    of the class. */
module RegexClass {
  import opened Bytes
  import opened RegexSyntax
  import opened RegexSemantics
  import opened Bytecode
  import opened RegexEmit
  import opened RegexMachine

  lemma BoundsPair(points: seq<int>, top: int, i: nat)
    requires |points| % 2 == 0 && i < |points| / 2
    ensures Bounds(points, top)[2 * i] == points[2 * i]
    ensures Bounds(points, top)[2 * i + 1] == if points[2 * i + 1] == UINT32_MAX then top else points[2 * i + 1] - 1
  {
    assert (2 * i) % 2 == 0 && (2 * i + 1) % 2 == 1;
  }

  lemma BoundsMembership(points: seq<int>, top: int, c: int)
    requires |points| % 2 == 0
    requires forall i :: 0 <= i < |points| / 2 && points[2 * i + 1] == UINT32_MAX ==> (c <= top <==> c < UINT32_MAX)
    ensures InBounds(Bounds(points, top), c) <==> InClass(points, c)
  {
    var b := Bounds(points, top);
    if InBounds(b, c) {
      var i: nat :| i < |b| / 2 && b[2 * i] <= c <= b[2 * i + 1];
      BoundsPair(points, top, i);
      assert points[2 * i] <= c < points[2 * i + 1];
    }
    if InClass(points, c) {
      var i: nat :| i < |points| / 2 && points[2 * i] <= c < points[2 * i + 1];
      BoundsPair(points, top, i);
      assert b[2 * i] <= c <= b[2 * i + 1];
    }
  }

  /** Only the last point can be the reserved value. */
  lemma NoneOpen(points: seq<int>)
    requires SortedPoints(points) && |points| >= 2 && points[|points| - 1] != UINT32_MAX
    ensures forall i :: 0 <= i < |points| / 2 ==> points[2 * i + 1] != UINT32_MAX
  {
    var n := |points|;
    forall i | 0 <= i < n / 2 ensures points[2 * i + 1] <= points[n - 1] {
      assert 2 * i + 1 == n - 1 || 2 * i + 1 < n - 1;
    }
  }

  /** With 16 bit bounds, 0xffff as the last bound stands for infinity. */
  lemma Class16(points: seq<int>, c: int)
    requires SortedPoints(points) && |points| >= 2 && 0 <= c < UINT32_MAX
    requires EmitClass(points).Range?
    ensures var p := Bounds(points, 0xffff);
      ((c >= 0xffff && p[|p| - 1] == 0xffff) || InBounds(p, c)) <==> InClass(points, c)
  {
    var n := |points|;
    var p := Bounds(points, 0xffff);
    var last := points[n - 1];
    assert points[2 * (n / 2 - 1)] < points[2 * (n / 2 - 1) + 1];
    if last == UINT32_MAX {
      assert p[n - 1] == 0xffff;
      if c >= 0xffff {
        assert points[2 * (n / 2 - 1)] <= c < points[2 * (n / 2 - 1) + 1];
      } else {
        forall i | 0 <= i < n / 2 && points[2 * i + 1] == UINT32_MAX ensures c <= 0xffff <==> c < UINT32_MAX {}
        BoundsMembership(points, 0xffff, c);
      }
    } else {
      assert p[n - 1] < 0xffff;
      NoneOpen(points);
      BoundsMembership(points, 0xffff, c);
    }
  }

  /** The opcode emitted for a class decides membership in the class. */
  lemma EmitClassCorrect(x: Ctx, points: seq<int>, ch: int)
    requires SortedPoints(points) && 0 <= Fold(x.env, ch) < UINT32_MAX
    ensures IsCharOp(EmitClass(points))
    ensures CharOp(x, EmitClass(points), ch) <==> InClass(points, Fold(x.env, ch))
  {
    var c := Fold(x.env, ch);
    if |points| < 2 {
      assert !InClass(points, c);
    } else if EmitClass(points).Range? {
      Class16(points, c);
    } else {
      BoundsMembership(points, UINT32_MAX - 1, c);
    }
  }

  /** A one-character pattern is emitted as one opcode that accepts the same
      characters. */
  lemma OneCharCorrect(x: Ctx, r: Node, cc: nat, i: Instr, ch: int)
    requires WellFormed(r) && WellFormedCtx(x) && (r.Chr? || r.AnyChar? || r.Class?)
    requires Emit(x.env, r, false, cc) == [i]
    requires 0 <= ch < TWO16
    ensures IsCharOp(i) && (CharOp(x, i, ch) <==> Accepts(x.env, r, ch))
  {
    match r
    case Class(points) => EmitClassCorrect(x, points, ch);
    case _ =>
  }
}
