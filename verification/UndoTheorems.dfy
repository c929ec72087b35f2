/** What undo and redo are for (buffer.c), as theorems about UndoModels: undos in
    a row walk back over the moments, redos walk forward again, exactly as far
    as the records allow. */
module UndoTheorems {
  import opened UndoRecords
  import opened UndoLogs
  import opened SideTables
  import opened UndoModels

  // Undos in a row

  /** From moment c on the texts have the same lengths in both directions. */
  ghost predicate MirrorLengths(h: seq<Snap>, c: nat) {
    && c < |h| && (|h| - 1 - c) % 2 == 0
    && forall i :: c <= i < |h| ==> |h[i].text| == |h[c + (|h| - 1 - i)].text|
  }

  /** The log has been walked by undo commands only, or nothing can be undone. */
  ghost predicate InChain(m: Model) {
    Ok(m) && (m.cursor == 0 || MirrorLengths(m.moments, m.cursor))
  }

  lemma RestedChain(m: Model)
    requires Ok(m)
    ensures InChain(Rested(m))
  {
  }

  lemma ChainUndo(m: Model)
    requires InChain(m) && Loggable(m)
    ensures CanUndo(m) && InChain(UndoStep(m)) && Loggable(UndoStep(m))
    ensures Full(m) || MirrorLengths(m.moments, m.cursor) || m.cursor == 0
  {
    if m.cursor > 0 {
      assert |m.moments[m.cursor].text| == |Now(m).text|;
      UndoShape(m);
      UndoMirror(m);
    }
  }

  /** What one undo does to the records and the moments. */
  lemma UndoShape(m: Model)
    requires CanUndo(m) && m.cursor > 0
    ensures m.cursor <= |m.records|
    ensures var r, s, k, full := m.records[m.cursor - 1], Now(m), UndoStep(m), Full(m);
      && RecordOk(r) && Applies(r, s.text) && Loggable(m) && |m.moments| == |m.records| + 1
      && k.records == Trimmed(m.records, full) + [Counter(r, s)] && k.moments == Moments(m.moments, full, false, Undone(r, s))
      && k.cursor == (if full && m.cursor > 1 then m.cursor - 2 else m.cursor - 1) && k.undoing
      && k.count == m.count + (if full then 0 else 1) && k.last == OpCode(Counter(r, s).op)
      && |Undone(r, s).text| == |m.moments[m.cursor - 1].text|
      && SideOk(m.side) && Within(|m.side.origin|, CounterOp(r.op), r.offset, r.size)
      && k.side == Told(m.side, CounterOp(r.op), r.offset, r.size)
  {
    hide Undone, Told;
    var r, s := m.records[m.cursor - 1], Now(m);
    FitsPlays(r, |m.moments[m.cursor - 1].text|, s);
    CounterFits(r, |m.moments[m.cursor - 1].text|, s);
    CounterIs(r, s);
    FitsWithin(Counter(r, s), |s.text|, |Undone(r, s).text|);
  }

  lemma CounterIs(r: Record, s: Snap)
    requires RecordOk(r) && Applies(r, s.text)
    ensures var c := Counter(r, s);
      RecordOk(c) && c.op == CounterOp(r.op) && c.offset == r.offset && c.size == r.size && c.wasModified == s.modified
  {
  }

  lemma UndoMirror(m: Model)
    requires CanUndo(m) && m.cursor > 0 && MirrorLengths(m.moments, m.cursor)
    ensures var k := UndoStep(m);
      k.cursor == 0 || MirrorLengths(k.moments, k.cursor)
    ensures !Full(m) || m.cursor > 1 ==> MirrorLengths(UndoStep(m).moments, UndoStep(m).cursor)
  {
    hide UndoStep, Ok, Fits, Told, Counter, MirrorLengths;
    UndoShape(m);
    MirrorGrows(m.moments, m.cursor, Undone(m.records[m.cursor - 1], Now(m)));
    if Full(m) && m.cursor > 1 {
      MirrorShifts(m.moments + [Undone(m.records[m.cursor - 1], Now(m))], m.cursor - 1);
      assert (m.moments + [Undone(m.records[m.cursor - 1], Now(m))])[1..] == m.moments[1..] + [Undone(m.records[m.cursor - 1], Now(m))];
    }
  }

  lemma MirrorGrows(h: seq<Snap>, c: nat, now: Snap)
    requires MirrorLengths(h, c) && c > 0 && |now.text| == |h[c - 1].text|
    ensures MirrorLengths(h + [now], c - 1)
  {
    var k := h + [now];
    forall i | c - 1 <= i < |k|
      ensures |k[i].text| == |k[c - 1 + (|k| - 1 - i)].text|
    {
      if c <= i < |h| { assert |h[i].text| == |h[c + (|h| - 1 - i)].text|; }
    }
  }

  lemma MirrorShifts(h: seq<Snap>, c: nat)
    requires MirrorLengths(h, c) && c > 0
    ensures MirrorLengths(h[1..], c - 1)
  {
    var k := h[1..];
    forall i | c - 1 <= i < |k|
      ensures |k[i].text| == |k[c - 1 + (|k| - 1 - i)].text|
    {
      assert |h[i + 1].text| == |h[c + (|h| - 1 - (i + 1))].text|;
    }
  }

  /** k undos in a row, the first after some other command. */
  ghost function UndoMany(m: Model, k: nat): (r: Model)
    requires Ok(m) && Loggable(m)
    ensures Ok(r) && Loggable(r) && (k > 0 ==> InChain(r)) && r.count - |r.records| == m.count - |m.records|
  {
    if k == 0 then m
    else
      var prev := UndoMany(m, k - 1);
      RestedChain(prev);
      var from := if k > 1 then prev else Rested(prev);
      ChainUndo(from);
      UndoStep(from)
  }

  /** How far k undos get from moment n in a log with this count: cursor, count
      and number of undos that found a record. A full log loses its oldest
      record to each undo. */
  function Walk(n: nat, count: int, k: nat): (nat, int, nat)
  {
    if k == 0 then (n, count, 0)
    else
      var (c, q, j) := Walk(n, count, k - 1);
      var full := q >= NB_LOGS_MAX - 1;
      if c == 0 then (c, q, j)
      else (if full && c > 1 then c - 2 else c - 1, if full then q else q + 1, j + 1)
  }

  /** Without trimming every undo goes back until there is no record. */
  lemma {:induction false} WalkAll(n: nat, count: int, k: nat)
    requires count + k < NB_LOGS_MAX
    ensures var (c, q, j) := Walk(n, count, k);
      c == (if k < n then n - k else 0) && j == (if k < n then k else n) && q == count + j
  {
    if k > 0 { WalkAll(n, count, k - 1); }
  }

  lemma {:induction false} WalkBounds(n: nat, count: int, k: nat)
    ensures var (c, q, j) := Walk(n, count, k);
      0 <= c && 0 <= j <= k && c + j <= n && q >= count
  {
    if k > 0 { WalkBounds(n, count, k - 1); }
  }

  /** The moments up to the cursor are the old ones, d of them trimmed, and the
      records from low on are still linked. */
  ghost predicate Remains(m: Model, low: int, r: Model, d: nat) {
    && r.cursor < |r.moments| && r.cursor + d < |m.moments|
    && (forall i :: 0 <= i <= r.cursor ==> r.moments[i] == m.moments[i + d])
    && (forall i :: 0 <= i < r.cursor && i + d >= low ==> Linked(r.records, r.moments, i))
  }

  lemma UndoRemains(m: Model, low: int, r: Model, d: nat)
    requires CanUndo(r) && r.cursor > 0 && Remains(m, low, r, d) && r.cursor - 1 + d >= low && r.moments[r.cursor] == Now(r)
    ensures var k := UndoStep(r);
      && Now(k) == m.moments[r.cursor - 1 + d]
      && (!Full(r) || r.cursor > 1 ==> Remains(m, low, k, if Full(r) then d + 1 else d))
  {
    hide UndoStep, Link, Undone, Counter;
    UndoShape(r);
    var k, shift := UndoStep(r), (if Full(r) then 1 else 0);
    var c := r.cursor - 1;
    assert Linked(r.records, r.moments, c);
    UndoneIs(r.records[c], r.moments[c], Now(r));
    if !Full(r) || r.cursor > 1 {
      forall i | 0 <= i < k.cursor && i + d + shift >= low
        ensures Linked(k.records, k.moments, i)
      {
        assert Linked(r.records, r.moments, i + shift);
      }
    }
  }

  lemma UndoneIs(r: Record, before: Snap, after: Snap)
    requires Link(r, before, after)
    ensures RecordOk(r) && Applies(r, after.text) && Undone(r, after) == before
  {
  }

  ghost predicate LinkedFrom(m: Model, low: int) {
    forall i :: 0 <= i < |m.records| && i >= low ==> Linked(m.records, m.moments, i)
  }

  lemma RestedNow(m: Model)
    requires Ok(m)
    ensures |m.moments| == |m.records| + 1 && Now(m) == m.moments[|m.records|]
  {
  }

  lemma WalkNone(n: nat, count: int)
    ensures Walk(n, count, 0) == (n, count, 0)
  {
  }

  /** The state at cursor c with j undos done, and what remains of the log. */
  ghost predicate WalkedTo(m: Model, low: int, r: Model, c: nat, q: int, j: nat) {
    var n := |m.records|;
    && c + j <= n && |m.moments| == n + 1 && r.moments != [] && r.cursor == c && r.count == q && Now(r) == m.moments[n - j]
    && (c > 0 ==> c < |r.moments| && r.moments[c] == Now(r) && Remains(m, low, r, n - j - c))
  }

  /** The state after k undos as the walk says. */
  ghost predicate Walked(m: Model, low: int, k: nat, r: Model) {
    var (c, q, j) := Walk(|m.records|, m.count, k);
    WalkedTo(m, low, r, c, q, j)
  }

  lemma WalkedStart(m: Model, low: int)
    requires Ok(m) && LinkedFrom(m, low)
    ensures Walked(m, low, 0, Rested(m))
  {
  }

  lemma WalkedOn(m: Model, low: int, r: Model, c: nat, q: int, j: nat)
    requires WalkedTo(m, low, r, c, q, j) && CanUndo(r) && c > 0 && low <= |m.records| - (j + 1)
    ensures var full := q >= NB_LOGS_MAX - 1;
      WalkedTo(m, low, UndoStep(r), if full && c > 1 then c - 2 else c - 1, if full then q else q + 1, j + 1)
  {
    hide UndoStep, Remains, Ok, Told, Counter, Undone;
    var d := |m.records| - j - c;
    UndoShape(r);
    UndoRemains(m, low, r, d);
    WalkedMoment(m, low, r, d, UndoStep(r));
  }

  lemma WalkedNext(m: Model, low: int, k: nat, r: Model)
    requires Walked(m, low, k, r) && InChain(r) && Loggable(r) && low <= |m.records| - (k + 1)
    ensures CanUndo(r) && Walked(m, low, k + 1, UndoStep(r))
  {
    hide UndoStep, Remains, Ok, WalkedTo, InChain;
    ChainUndo(r);
    var (c, q, j) := Walk(|m.records|, m.count, k);
    WalkBounds(|m.records|, m.count, k);
    WalkedCursor(m, low, r, c, q, j);
    if c > 0 {
      WalkedOn(m, low, r, c, q, j);
    } else {
      StayedBack(r);
    }
  }

  lemma WalkedCursor(m: Model, low: int, r: Model, c: nat, q: int, j: nat)
    requires WalkedTo(m, low, r, c, q, j)
    ensures r.cursor == c
  {
  }

  lemma StayedBack(r: Model)
    requires CanUndo(r) && r.cursor == 0
    ensures UndoStep(r) == r
  {
  }

  lemma WalkedMoment(m: Model, low: int, r: Model, d: nat, k: Model)
    requires Remains(m, low, r, d) && r.cursor > 0
    ensures r.cursor + d <= |m.records| + |m.moments|
    ensures Remains(m, low, k, d) ==> k.cursor < |k.moments| && k.cursor + d < |m.moments| && k.moments[k.cursor] == m.moments[k.cursor + d]
    ensures Remains(m, low, k, d + 1) ==> k.cursor < |k.moments| && k.cursor + d + 1 < |m.moments| && k.moments[k.cursor] == m.moments[k.cursor + d + 1]
  {
  }

  /** Undo over whole runs: k undos in a row give the moment before the last j
      records, where j is the number of undos that found one. */
  lemma {:induction false} UndoBack(m: Model, low: int, k: nat)
    requires Ok(m) && Loggable(m) && LinkedFrom(m, low) && low <= |m.records| - k
    ensures Walked(m, low, k, if k == 0 then Rested(m) else UndoMany(m, k))
    decreases k
  {
    hide Walked, UndoStep, InChain, LinkedFrom, Ok;
    if k == 0 {
      WalkedStart(m, low);
    } else {
      UndoBack(m, low, k - 1);
      var prev := UndoMany(m, k - 1);
      RestedChain(prev);
      WalkedNext(m, low, k - 1, if k > 1 then prev else Rested(prev));
    }
  }

  /** The moment that k undos give. */
  lemma UndoGives(m: Model, k: nat)
    requires Ok(m) && Loggable(m) && LinkedFrom(m, |m.records| - k)
    ensures var (c, q, j) := Walk(|m.records|, m.count, k);
      0 <= |m.records| - j < |m.moments| && Now(UndoMany(m, k)) == m.moments[|m.records| - j]
  {
    hide UndoStep, Walk, Remains, LinkedFrom, Ok, Rested;
    RestedNow(m);
    WalkNone(|m.records|, m.count);
    WalkBounds(|m.records|, m.count, k);
    UndoBack(m, |m.records| - k, k);
  }
}
