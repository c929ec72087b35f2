/** Redo after undo (buffer.c): what k undos and j redos give, byte by byte. */
module UndoRedos {
  import opened Bytes
  import opened PagedText
  import opened UndoRecords
  import opened SideTables
  import opened UndoModels
  import opened UndoTheorems

  /** j redos in a row. */
  ghost function RedoMany(m: Model, j: nat): (r: Model)
    requires Ok(m)
    ensures Ok(r)
  {
    if j == 0 then m else RedoStep(RedoMany(m, j - 1))
  }

  /** The counter records of the last k records, as undos log them. */
  ghost function Counters(m: Model, k: nat): (c: seq<Record>)
    requires |m.moments| == |m.records| + 1 && k <= |m.records| && LinkedFrom(m, |m.records| - k)
    ensures |c| == k
  {
    if k == 0 then []
    else
      var n := |m.records|;
      assert Linked(m.records, m.moments, n - k);
      UndoneIs(m.records[n - k], m.moments[n - k], m.moments[n - k + 1]);
      Counters(m, k - 1) + [Counter(m.records[n - k], m.moments[n - k + 1])]
  }

  /** k undos done, with nothing trimmed. */
  ghost predicate WentBack(m: Model, k: nat, r: Model)
    requires |m.moments| == |m.records| + 1 && k <= |m.records| && LinkedFrom(m, |m.records| - k)
  {
    var n := |m.records|;
    && r.records == m.records + Counters(m, k) && |r.moments| == n + k + 1 && r.moments[..n + 1] == m.moments
    && Now(r) == m.moments[n - k] && r.cursor == n - k && r.undoing == (k > 0) && r.count == m.count + k
  }

  lemma GoneBackOne(m: Model, k: nat, r: Model)
    requires Ok(m) && k < |m.records| && LinkedFrom(m, |m.records| - (k + 1)) && CanUndo(r) && WentBack(m, k, r) && m.count + k < NB_LOGS_MAX - 1
    ensures WentBack(m, k + 1, UndoStep(r))
  {
    hide UndoStep, Counter, Undone, Link, Told, Ok;
    var n := |m.records|;
    var i := n - (k + 1);
    UndoShape(r);
    assert Linked(m.records, m.moments, i);
    UndoneIs(m.records[i], m.moments[i], m.moments[i + 1]);
    assert r.records[i] == m.records[i];
    var s := UndoStep(r);
    assert s.records == m.records + (Counters(m, k) + [Counter(m.records[i], m.moments[i + 1])]);
    assert s.moments[..n + 1] == r.moments[..n + 1];
  }

  lemma {:induction false} GoneBack(m: Model, k: nat)
    requires Ok(m) && Loggable(m) && k <= |m.records| && LinkedFrom(m, |m.records| - k) && m.count + k < NB_LOGS_MAX
    ensures WentBack(m, k, if k == 0 then Rested(m) else UndoMany(m, k))
    decreases k
  {
    hide UndoStep, InChain, Linked, CanUndo;
    if k == 0 {
      assert m.records + [] == m.records;
    } else {
      GoneBack(m, k - 1);
      var prev := UndoMany(m, k - 1);
      RestedChain(prev);
      var from := if k > 1 then prev else Rested(prev);
      ChainUndo(from);
      GoneBackOne(m, k - 1, from);
    }
  }

  // What redo gives back

  function No(n: nat): seq<bool> {
    seq(n, _ => false)
  }

  /** Where two texts differ on n bytes from o on. */
  function Changes(a: seq<byte>, b: seq<byte>, o: nat, n: nat): seq<bool>
    requires o + n <= |a| && |a| == |b|
  {
    seq(n, p requires 0 <= p < n => a[o + p] != b[o + p])
  }

  /** The lost bytes behind one more record: inserted bytes are there again,
      written ones are lost where the write changed something. */
  function LostBy(r: Record, a: seq<byte>, b: seq<byte>, l: seq<bool>): (k: seq<bool>)
    requires Fits(r, |a|, |b|) && |l| == |a|
    ensures |k| == |b|
  {
    match r.op
    case OpInsert => l[..r.offset] + No(r.size) + l[r.offset..]
    case OpDelete => l[..r.offset] + l[r.offset + r.size..]
    case OpWrite => l[..r.offset] + Changes(a, b, r.offset, r.size) + l[r.offset + r.size..]
  }

  /** After undoing from moment `from` + i back to `from`, the bytes of moment
      `from` + i that i redos do not give back: those that a write changed, as
      far as later edits keep them. */
  ghost function Lost(m: Model, from: nat, i: nat): (l: seq<bool>)
    requires Ok(m) && from + i <= |m.records|
    ensures |l| == |m.moments[from + i].text|
  {
    if i == 0 then No(|m.moments[from].text|)
    else
      var l, r := Lost(m, from, i - 1), m.records[from + i - 1];
      var a, b := m.moments[from + i - 1].text, m.moments[from + i].text;
      LostBy(r, a, b, l)
  }

  /** The texts differ exactly where l says. */
  ghost predicate DifferAt(t: seq<byte>, b: seq<byte>, l: seq<bool>) {
    |t| == |b| == |l| && forall p :: 0 <= p < |t| ==> (t[p] != b[p] <==> l[p])
  }

  /** Playing the counter record of r on a text that differs from the moment
      before r. */
  lemma Redone(r: Record, before: Snap, after: Snap, t: Snap, l: seq<bool>)
    requires Link(r, before, after) && DifferAt(t.text, before.text, l)
    ensures var c, a, b := Counter(r, after), before.text, after.text;
      && Fits(r, |a|, |b|) && |l| == |a| && Applies(c, t.text) && Undone(c, t).modified == after.modified
      && DifferAt(Undone(c, t).text, b, LostBy(r, a, b, l))
  {
    LinkFits(r, before, after);
    match r.op
    case OpInsert => RedoneInsert(r, before, after, t, l);
    case OpDelete => RedoneDelete(r, before, after, t, l);
    case OpWrite => RedoneWrite(r, before, after, t, l);
  }

  lemma InsertDiffers(a: seq<byte>, b: seq<byte>, t: seq<byte>, l: seq<bool>, o: nat, n: nat)
    requires o + n <= |b| && a == Deleted(b, o, n) && DifferAt(t, a, l)
    ensures DifferAt(Inserted(t, o, b[o..o + n]), b, l[..o] + No(n) + l[o..])
  {
    var u, k := Inserted(t, o, b[o..o + n]), l[..o] + No(n) + l[o..];
    forall p | 0 <= p < |u| ensures u[p] != b[p] <==> k[p] {
      if p < o {
        assert a[p] == b[p] && u[p] == t[p] && k[p] == l[p];
      } else if p < o + n {
        assert u[p] == b[p] && !k[p];
      } else {
        assert a[p - n] == b[p] && u[p] == t[p - n] && k[p] == l[p - n];
      }
    }
  }

  lemma DeleteDiffers(a: seq<byte>, b: seq<byte>, t: seq<byte>, l: seq<bool>, o: nat, d: seq<byte>)
    requires o <= |b| && a == Inserted(b, o, d) && DifferAt(t, a, l)
    ensures DifferAt(Deleted(t, o, |d|), b, l[..o] + l[o + |d|..])
  {
    var u, k, n := Deleted(t, o, |d|), l[..o] + l[o + |d|..], |d|;
    forall p | 0 <= p < |u| ensures u[p] != b[p] <==> k[p] {
      if p < o {
        assert a[p] == b[p] && u[p] == t[p] && k[p] == l[p];
      } else {
        assert a[p + n] == b[p] && u[p] == t[p + n] && k[p] == l[p + n];
      }
    }
  }

  lemma WriteDiffers(a: seq<byte>, b: seq<byte>, t: seq<byte>, l: seq<bool>, o: nat, d: seq<byte>)
    requires o + |d| <= |b| && a == Overwritten(b, o, d) && DifferAt(t, a, l)
    ensures DifferAt(Overwritten(t, o, a[o..o + |d|]), b, l[..o] + Changes(a, b, o, |d|) + l[o + |d|..])
  {
    var n := |d|;
    var u, k := Overwritten(t, o, a[o..o + n]), l[..o] + Changes(a, b, o, n) + l[o + n..];
    forall p | 0 <= p < |u| ensures u[p] != b[p] <==> k[p] {
      if p < o {
        assert a[p] == b[p] && u[p] == t[p] && k[p] == l[p];
      } else if p < o + n {
        assert u[p] == a[p] && k[p] == Changes(a, b, o, n)[p - o];
      } else {
        assert a[p] == b[p] && u[p] == t[p] && k[p] == l[p];
      }
    }
  }

  lemma RedoneInsert(r: Record, before: Snap, after: Snap, t: Snap, l: seq<bool>)
    requires Link(r, before, after) && DifferAt(t.text, before.text, l) && r.op == OpInsert && Fits(r, |before.text|, |after.text|)
    ensures var c := Counter(r, after);
      && Applies(c, t.text) && Undone(c, t).modified == after.modified
      && DifferAt(Undone(c, t).text, after.text, l[..r.offset] + No(r.size) + l[r.offset..])
  {
    hide DifferAt;
    SameLengths(t.text, before.text, l);
    InsertDiffers(before.text, after.text, t.text, l, r.offset, r.size);
  }

  lemma RedoneDelete(r: Record, before: Snap, after: Snap, t: Snap, l: seq<bool>)
    requires Link(r, before, after) && DifferAt(t.text, before.text, l) && r.op == OpDelete && Fits(r, |before.text|, |after.text|)
    ensures var c := Counter(r, after);
      && Applies(c, t.text) && Undone(c, t).modified == after.modified && |l| == |before.text|
      && DifferAt(Undone(c, t).text, after.text, l[..r.offset] + l[r.offset + r.size..])
  {
    hide DifferAt;
    SameLengths(t.text, before.text, l);
    DeleteDiffers(before.text, after.text, t.text, l, r.offset, r.data);
  }

  lemma RedoneWrite(r: Record, before: Snap, after: Snap, t: Snap, l: seq<bool>)
    requires Link(r, before, after) && DifferAt(t.text, before.text, l) && r.op == OpWrite && Fits(r, |before.text|, |after.text|)
    ensures var c := Counter(r, after);
      && Applies(c, t.text) && Undone(c, t).modified == after.modified && |l| == |before.text|
      && DifferAt(Undone(c, t).text, after.text, l[..r.offset] + Changes(before.text, after.text, r.offset, r.size) + l[r.offset + r.size..])
  {
    hide DifferAt;
    SameLengths(t.text, before.text, l);
    WriteDiffers(before.text, after.text, t.text, l, r.offset, r.data);
  }

  lemma SameLengths(t: seq<byte>, b: seq<byte>, l: seq<bool>)
    requires DifferAt(t, b, l)
    ensures |t| == |b| == |l|
  {
  }

  /** i of k undos redone. */
  ghost predicate WentForth(m: Model, k: nat, i: nat, r: Model)
    requires Ok(m) && i <= k <= |m.records| && LinkedFrom(m, |m.records| - k)
  {
    var n := |m.records|;
    && r.records == m.records + Counters(m, k - i) && |r.moments| == n + (k - i) + 1 && r.moments[..n] == m.moments[..n]
    && r.cursor == n - k + i && r.undoing == (i < k) && r.count == m.count + k
    && DifferAt(Now(r).text, m.moments[n - k + i].text, Lost(m, n - k, i)) && Now(r).modified == m.moments[n - k + i].modified
  }

  lemma NothingLost(m: Model, k: nat, r: Model)
    requires Ok(m) && k <= |m.records| && LinkedFrom(m, |m.records| - k) && WentBack(m, k, r)
    ensures WentForth(m, k, 0, r)
  {
    assert r.moments[..|m.records|] == r.moments[..|m.records| + 1][..|m.records|];
  }

  lemma LastCounter(m: Model, k: nat)
    requires |m.moments| == |m.records| + 1 && 0 < k <= |m.records| && LinkedFrom(m, |m.records| - k)
    ensures var f := |m.records| - k;
      && Link(m.records[f], m.moments[f], m.moments[f + 1]) && RecordOk(m.records[f]) && Applies(m.records[f], m.moments[f + 1].text)
      && Counters(m, k) == Counters(m, k - 1) + [Counter(m.records[f], m.moments[f + 1])]
  {
    hide Counter, Undone;
    assert Linked(m.records, m.moments, |m.records| - k);
  }

  lemma LastOf<T>(s: seq<T>, a: seq<T>, b: seq<T>, c: T)
    requires s == a + (b + [c])
    ensures |s| > 0 && s[|s| - 1] == c && s[..|s| - 1] == a + b
  {
  }

  lemma LinkedLess(m: Model, low: int, high: int)
    requires LinkedFrom(m, low) && low <= high
    ensures LinkedFrom(m, high)
  {
  }

  /** The record that the next redo plays, and what it makes of the text. */
  lemma NextRedo(m: Model, k: nat, i: nat, r: Model)
    requires Ok(m) && i < k <= |m.records| && LinkedFrom(m, |m.records| - k) && WentForth(m, k, i, r)
    ensures |r.records| > 0 && |r.records| == |m.records| + (k - i)
    ensures r.records[..|r.records| - 1] == m.records + Counters(m, k - (i + 1))
    ensures var c, f := r.records[|r.records| - 1], |m.records| - k + i;
      && RecordOk(c) && Applies(c, Now(r).text) && Undone(c, Now(r)).modified == m.moments[f + 1].modified
      && DifferAt(Undone(c, Now(r)).text, m.moments[f + 1].text, Lost(m, |m.records| - k, i + 1))
  {
    hide Counter, Undone, Link, Fits, Lost, LostBy, Counters, DifferAt, Linked, LinkedFrom;
    var f := |m.records| - k + i;
    LinkedLess(m, |m.records| - k, f);
    LinkedLess(m, |m.records| - k, f + 1);
    LastCounter(m, k - i);
    var c := Counter(m.records[f], m.moments[f + 1]);
    LastOf(r.records, m.records, Counters(m, k - (i + 1)), c);
    Redone(m.records[f], m.moments[f], m.moments[f + 1], Now(r), Lost(m, |m.records| - k, i));
    LostNext(m, |m.records| - k, i + 1);
  }

  lemma WentForthOne(m: Model, k: nat, i: nat, r: Model)
    requires Ok(m) && i < k <= |m.records| && LinkedFrom(m, |m.records| - k) && Ok(r) && WentForth(m, k, i, r)
    ensures WentForth(m, k, i + 1, RedoStep(r))
  {
    hide Told, Undone, Lost, Counters, DifferAt, SideOk, Within, RedoStep, Linked, Fits;
    NextRedo(m, k, i, r);
    RedoShape(r);
    assert RedoStep(r).moments[..|m.records|] == r.moments[..|m.records|];
  }

  lemma RedoShape(r: Model)
    requires Ok(r) && r.undoing
    ensures |r.records| > 0 && |r.moments| == |r.records| + 1
    ensures var n := |r.records| - 1;
      var c, k := r.records[n], RedoStep(r);
      && RecordOk(c) && Applies(c, Now(r).text)
      && k.records == r.records[..n] && k.moments == r.moments[..n] + [Undone(c, Now(r))] && k.count == r.count && k.last == r.last
      && k.undoing == (r.cursor + 1 < n) && k.cursor == (if r.cursor + 1 < n then r.cursor + 1 else n)
      && SideOk(r.side) && Within(|r.side.origin|, CounterOp(c.op), c.offset, c.size)
      && k.side == Told(r.side, CounterOp(c.op), c.offset, c.size)
  {
    hide Undone, Told;
    var n := |r.records| - 1;
    FitsPlays(r.records[n], |r.moments[n].text|, Now(r));
    FitsBack(r.records[n], |r.moments[n].text|, |Now(r).text|);
  }

  /** Redo keeps what the next undo expects. */
  lemma ChainRedo(m: Model)
    requires Ok(m) && m.undoing && MirrorLengths(m.moments, m.cursor)
    ensures MirrorLengths(RedoStep(m).moments, RedoStep(m).cursor) && InChain(RedoStep(m))
  {
    hide RedoStep, Undone, Told, Fits;
    RedoShape(m);
    var n, k, h := |m.records| - 1, RedoStep(m), m.moments;
    FitsPlays(m.records[n], |h[n].text|, Now(m));
    forall i | k.cursor <= i < |k.moments|
      ensures |k.moments[i].text| == |k.moments[k.cursor + (|k.moments| - 1 - i)].text|
    {
      assert forall j :: 0 <= j <= n ==> |k.moments[j].text| == |h[j].text|;
      assert |h[i].text| == |h[m.cursor + (|h| - 1 - i)].text|;
    }
  }

  lemma LostNext(m: Model, from: nat, i: nat)
    requires Ok(m) && 0 < i && from + i <= |m.records|
    ensures var l, r := Lost(m, from, i - 1), m.records[from + i - 1];
      var a, b := m.moments[from + i - 1].text, m.moments[from + i].text;
      Fits(r, |a|, |b|) && |l| == |a| && Lost(m, from, i) == LostBy(r, a, b, l)
  {
    hide LostBy;
  }

  /** Undo then redo, with nothing trimmed: k undos and j redos give the text of
      moment n - k + j but for the bytes that are lost, and its modified flag;
      with j = k the log is that of the start, and at its end. */
  lemma {:induction false} UndoRedo(m: Model, k: nat, j: nat)
    requires Ok(m) && Loggable(m) && 0 < k <= |m.records| && j <= k && LinkedFrom(m, |m.records| - k) && m.count + k < NB_LOGS_MAX
    ensures WentForth(m, k, j, RedoMany(UndoMany(m, k), j))
    decreases j
  {
    hide UndoMany, RedoStep, WentForth, WentBack, LinkedFrom, Ok;
    if j == 0 {
      GoneBack(m, k);
      NothingLost(m, k, UndoMany(m, k));
    } else {
      UndoRedo(m, k, j - 1);
      WentForthOne(m, k, j - 1, RedoMany(UndoMany(m, k), j - 1));
    }
  }

  /** No write among the records from moment `from` on changed a byte. */
  ghost predicate WritesNothing(m: Model, from: nat, i: nat)
    requires Ok(m) && from + i <= |m.records|
  {
    forall f :: from <= f < from + i && m.records[f].op == OpWrite ==> m.moments[f + 1].text == m.moments[f].text
  }

  lemma {:induction false} LostNothing(m: Model, from: nat, i: nat)
    requires Ok(m) && from + i <= |m.records| && WritesNothing(m, from, i)
    ensures Lost(m, from, i) == No(|m.moments[from + i].text|)
    decreases i
  {
    if i > 0 {
      hide Lost, LostBy;
      LostNothing(m, from, i - 1);
      LostNext(m, from, i);
      LostNoMore(m.records[from + i - 1], m.moments[from + i - 1].text, m.moments[from + i].text);
    }
  }

  lemma LostNoMore(r: Record, a: seq<byte>, b: seq<byte>)
    requires Fits(r, |a|, |b|) && (r.op == OpWrite ==> a == b)
    ensures LostBy(r, a, b, No(|a|)) == No(|b|)
  {
  }

  ghost predicate GivesBack(m: Model, k: nat, j: nat)
    requires Ok(m) && Loggable(m) && j <= k <= |m.records|
  {
    Now(RedoMany(UndoMany(m, k), j)) == m.moments[|m.records| - k + j]
  }

  lemma GivesUnchanged(m: Model, k: nat, j: nat)
    requires Ok(m) && Loggable(m) && 0 < k <= |m.records| && LinkedFrom(m, |m.records| - k) && m.count + k < NB_LOGS_MAX && j <= k
    requires WritesNothing(m, |m.records| - k, k)
    ensures GivesBack(m, k, j)
  {
    hide UndoMany, RedoMany, Lost;
    UndoRedo(m, k, j);
    LostNothing(m, |m.records| - k, j);
    SameText(Now(RedoMany(UndoMany(m, k), j)).text, m.moments[|m.records| - k + j].text, Lost(m, |m.records| - k, j));
  }

  lemma MissesChanged(m: Model, k: nat, f: nat)
    requires Ok(m) && Loggable(m) && 0 < k <= |m.records| && LinkedFrom(m, |m.records| - k) && m.count + k < NB_LOGS_MAX
    requires |m.records| - k <= f < |m.records| && m.records[f].op == OpWrite && m.moments[f + 1].text != m.moments[f].text
    ensures !GivesBack(m, k, f + 1 - (|m.records| - k))
  {
    hide UndoMany, RedoMany, Lost;
    var from := |m.records| - k;
    var j := f + 1 - from;
    UndoRedo(m, k, j);
    assert Linked(m.records, m.moments, f);
    LostWrite(m, from, j);
    SomeText(Now(RedoMany(UndoMany(m, k), j)).text, m.moments[from + j].text, Lost(m, from, j));
  }

  /** What the last k records say: redo gives every moment back, step by step,
      exactly when no write among them changed a byte. */
  lemma RedoGivesAll(m: Model, k: nat)
    requires Ok(m) && Loggable(m) && 0 < k <= |m.records| && LinkedFrom(m, |m.records| - k) && m.count + k < NB_LOGS_MAX
    ensures (forall j :: 0 <= j <= k ==> GivesBack(m, k, j)) <==> WritesNothing(m, |m.records| - k, k)
  {
    hide GivesBack;
    if WritesNothing(m, |m.records| - k, k) {
      forall j | 0 <= j <= k ensures GivesBack(m, k, j) { GivesUnchanged(m, k, j); }
    } else {
      var f :| |m.records| - k <= f < |m.records| && m.records[f].op == OpWrite && m.moments[f + 1].text != m.moments[f].text;
      MissesChanged(m, k, f);
    }
  }

  lemma SameText(t: seq<byte>, b: seq<byte>, l: seq<bool>)
    requires DifferAt(t, b, l) && l == No(|b|)
    ensures t == b
  {
  }

  lemma SomeText(t: seq<byte>, b: seq<byte>, l: seq<bool>)
    requires DifferAt(t, b, l) && l != No(|b|)
    ensures t != b
  {
    assert exists p :: 0 <= p < |l| && l[p] != No(|b|)[p];
  }

  /** A write that changed a byte loses it. */
  lemma LostWrite(m: Model, from: nat, j: nat)
    requires Ok(m) && 0 < j && from + j <= |m.records| && m.records[from + j - 1].op == OpWrite
    requires Linked(m.records, m.moments, from + j - 1) && m.moments[from + j].text != m.moments[from + j - 1].text
    ensures Lost(m, from, j) != No(|m.moments[from + j].text|)
  {
    LostNext(m, from, j);
    var r, a, b := m.records[from + j - 1], m.moments[from + j - 1].text, m.moments[from + j].text;
    assert a == Overwritten(b, r.offset, r.data);
    hide Lost;
    var p :| 0 <= p < |a| && a[p] != b[p];
    assert Lost(m, from, j)[p];
  }

  lemma EndForth(m: Model, k: nat, r: Model)
    requires Ok(m) && k <= |m.records| && LinkedFrom(m, |m.records| - k) && WentForth(m, k, k, r)
    ensures |m.moments| == |m.records| + 1 && Now(m) == m.moments[|m.records|]
    ensures r.records == m.records && !r.undoing && |r.moments| == |m.records| + 1 && r.moments == m.moments[..|m.records|] + [Now(r)]
    ensures DifferAt(Now(r).text, Now(m).text, Lost(m, |m.records| - k, k)) && Now(r).modified == Now(m).modified
  {
    hide Lost, DifferAt;
    assert m.records + [] == m.records;
    var n := |m.records|;
    assert r.moments == r.moments[..n] + [r.moments[n]];
  }

  /** The text at the end is given back exactly when no byte of it is lost. */
  lemma RedoGivesEnd(m: Model, k: nat)
    requires Ok(m) && Loggable(m) && 0 < k <= |m.records| && LinkedFrom(m, |m.records| - k) && m.count + k < NB_LOGS_MAX
    ensures var r := RedoMany(UndoMany(m, k), k);
      && r.records == m.records && !r.undoing && r.moments == m.moments[..|m.records|] + [Now(r)]
      && (Now(r) == Now(m) <==> Lost(m, |m.records| - k, k) == No(|Now(m).text|))
  {
    var r, l := RedoMany(UndoMany(m, k), k), Lost(m, |m.records| - k, k);
    UndoRedo(m, k, k);
    EndForth(m, k, r);
    hide *;
    if l == No(|Now(m).text|) { SameText(Now(r).text, Now(m).text, l); } else { SomeText(Now(r).text, Now(m).text, l); }
  }
}
