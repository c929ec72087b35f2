/** What every command does to the links between records and moments (buffer.c):
    an edit and a redo keep them, and an undo adds a linked record exactly when it
    does not take back a write that changed something. */
module UndoLinks {
  import opened UndoRecords
  import opened UndoLogs
  import opened SideTables
  import opened UndoModels
  import opened UndoTheorems
  import opened UndoRedos

  lemma AllIsFromStart(m: Model)
    ensures AllLinked(m) <==> LinkedFrom(m, 0)
  {
  }

  // Edits

  lemma EditedFrom(m: Model, e: Edit, low: int)
    requires CanEdit(m, e) && LinkedFrom(m, low)
    ensures LinkedFrom(Edited1(m, e), low)
  {
    hide Told, Link, Fits, Linked, Moments, Added;
    var r, now := Recorded(Now(m), e.op, e.offset, e.size), Snap(EditText(Now(m).text, e), true);
    EditLinks(Now(m), e);
    EnteredLinks(m, r, now, e.data);
    EnteredShape(m, r, now);
    var k, shift := Entered(m, r, now), if Full(m) then 1 else 0;
    EnteredSize(m, r, now);
    forall i | 0 <= i < |k.records| && i >= low ensures Linked(k.records, k.moments, i) {
      if i < |m.records| - shift { assert Linked(m.records, m.moments, i + shift); }
    }
  }

  /** How long the log is after an entry. */
  lemma EnteredSize(m: Model, r: Record, now: Snap)
    requires Ok(m) && Loggable(m) && Fits(r, |Now(m).text|, |now.text|)
    ensures var n := |m.records| - if Full(m) then 1 else 0;
      |Entered(m, r, now).records| == if Merges(Trimmed(m.records, Full(m)), m.last, r) then n else n + 1
  {
    hide Told, Fits, Moments;
  }

  lemma {:induction false} EditedAllFrom(m: Model, es: seq<Edit>, low: int)
    requires CanEditAll(m, es) && LinkedFrom(m, low)
    ensures LinkedFrom(EditedAll(m, es), low)
    decreases |es|
  {
    hide Ok, CanEdit, Edited1, LinkedFrom;
    if es != [] {
      EditedFrom(m, es[0], low);
      EditedAllFrom(Edited1(m, es[0]), es[1..], low);
    }
  }

  // Undo and redo

  /** The next undo takes back a write that changed the text: the bytes in the
      record are not those in the text. */
  predicate LosesWrite(m: Model) {
    0 < m.cursor <= |m.records| && m.moments != [] &&
    var r := m.records[m.cursor - 1];
    r.op == OpWrite && r.offset + r.size <= |Now(m).text| && r.data != Now(m).text[r.offset..r.offset + r.size]
  }

  lemma CounterLinked(r: Record, s: Snap)
    requires RecordOk(r) && Applies(r, s.text)
    ensures Link(Counter(r, s), s, Undone(r, s)) <==> !(r.op == OpWrite && r.data != s.text[r.offset..r.offset + r.size])
  {
    assert Link(r, Undone(r, s), s);
    CounterLinks(r, Undone(r, s), s);
  }

  /** An undo keeps the links; its own record is linked exactly when it loses no
      write. */
  lemma UndoLinks1(m: Model, low: int)
    requires CanUndo(m) && LinkedFrom(m, low) && m.cursor > 0
    ensures var k := UndoStep(m);
      && |k.records| > 0 && (!LosesWrite(m) ==> LinkedFrom(k, low))
      && (Linked(k.records, k.moments, |k.records| - 1) <==> !LosesWrite(m))
  {
    hide UndoStep, Told, Undone, Counter, Link, Fits;
    UndoShape(m);
    var r, s, k, shift := m.records[m.cursor - 1], Now(m), UndoStep(m), if Full(m) then 1 else 0;
    CounterLinked(r, s);
    WriteInText(r, s);
    forall i | 0 <= i < |k.records| - 1 && i >= low ensures Linked(k.records, k.moments, i) {
      assert Linked(m.records, m.moments, i + shift);
    }
  }

  lemma WriteInText(r: Record, s: Snap)
    requires RecordOk(r) && Applies(r, s.text)
    ensures r.op == OpWrite ==> r.offset + r.size <= |s.text|
  {
  }

  /** On a log all of whose records lead back: they all do after the undo exactly
      when it loses no write. */
  lemma UndoLinked(m: Model)
    requires CanUndo(m) && AllLinked(m)
    ensures AllLinked(UndoStep(m)) <==> !LosesWrite(m)
  {
    hide UndoStep, LosesWrite;
    AllIsFromStart(m);
    AllIsFromStart(UndoStep(m));
    if m.cursor > 0 { UndoLinks1(m, 0); } else { StaysLinked(m); }
  }

  lemma StaysLinked(m: Model)
    requires CanUndo(m) && m.cursor == 0
    ensures UndoStep(m) == m && !LosesWrite(m)
  {
  }

  lemma UndoFrom(m: Model, low: int)
    requires CanUndo(m) && LinkedFrom(m, low) && !LosesWrite(m)
    ensures LinkedFrom(UndoStep(m), low)
  {
    hide UndoStep, LosesWrite, LinkedFrom;
    if m.cursor > 0 { UndoLinks1(m, low); } else { StaysLinked(m); }
  }

  lemma RedoFrom(m: Model, low: int)
    requires Ok(m) && LinkedFrom(m, low)
    ensures LinkedFrom(RedoStep(m), low)
  {
    hide RedoStep, Told, Undone, Link, Fits;
    if m.undoing {
      RedoShape(m);
      var n, k := |m.records| - 1, RedoStep(m);
      forall i | 0 <= i < |k.records| && i >= low ensures Linked(k.records, k.moments, i) {
        assert Linked(m.records, m.moments, i) && Linked(m.records, m.moments, n);
        UndoneIs(m.records[n], m.moments[n], Now(m));
      }
    } else {
      StaysUndone(m);
    }
  }

  lemma StaysUndone(m: Model)
    requires Ok(m) && !m.undoing
    ensures RedoStep(m) == m
  {
  }

  // A record that does not lead back stays where it is

  ghost predicate DeadEnd(m: Model, i: nat) {
    i < |m.records| && m.records[i].op == OpWrite && !Linked(m.records, m.moments, i)
  }

  lemma EditedDeadEnd(m: Model, e: Edit, i: nat)
    requires CanEdit(m, e) && !Full(m) && DeadEnd(m, i)
    ensures DeadEnd(Edited1(m, e), i)
  {
    hide Told, Link, Fits;
    EditLinks(Now(m), e);
  }

  lemma UndoDeadEnd(m: Model, i: nat)
    requires CanUndo(m) && !Full(m) && DeadEnd(m, i)
    ensures DeadEnd(UndoStep(m), i)
  {
    hide UndoStep, Told, Undone, Counter, Link, Fits;
    if m.cursor > 0 { UndoShape(m); } else { StaysLinked(m); }
  }

  /** An undo that loses a write leaves such a record. */
  lemma LostDeadEnd(m: Model)
    requires CanUndo(m) && LosesWrite(m)
    ensures var k := UndoStep(m);
      |k.records| > 0 && DeadEnd(k, |k.records| - 1) && (!Full(m) ==> |k.records| == |m.records| + 1)
  {
    hide UndoStep, Told, Undone, Counter, Link, Fits;
    UndoShape(m);
    UndoLinks1(m, |m.records|);
    CounterIs(m.records[m.cursor - 1], Now(m));
  }
}
