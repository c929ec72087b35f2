/** Undo over whole runs (buffer.c): after a session of edits, undos and redos in
    any order, which moments do further undos give? */
module UndoWholeRuns {
  import opened Bytes
  import opened Pages
  import opened PagedText
  import opened PagedOps
  import opened UndoRecords
  import opened UndoLogs
  import opened SideTables
  import opened UndoModels
  import opened UndoTheorems
  import opened UndoLinks
  import opened EditBuffers
  import opened UndoSessions
  import opened UndoRuns

  /** No undo of the session takes back a write that changed the text. */
  ghost predicate KeepsWrites(m: Model, s: seq<byte>, consecutive: bool, cs: seq<Command>)
    requires Runs(m, s, consecutive, cs)
    decreases |cs|
  {
    cs == [] || (Keeps1(m, consecutive, cs[0]) && KeepsWrites(After1(m, s, consecutive, cs[0]), s, !cs[0].Do?, cs[1..]))
  }

  predicate Keeps1(m: Model, consecutive: bool, c: Command) {
    c.Undo? ==> !LosesWrite(Resumed(m, consecutive))
  }

  lemma StepLinked(m: Model, s: seq<byte>, consecutive: bool, c: Command, low: int)
    requires Ready(m, s, consecutive, c) && LinkedFrom(m, low) && Keeps1(m, consecutive, c)
    ensures LinkedFrom(After1(m, s, consecutive, c), low)
  {
    hide Ok, EditedAll, CallEdits, UndoStep, RedoStep, Effect, CanUndo, CanEditAll, LinkedFrom, LosesWrite;
    RestedLinked(m, low);
    match c
    case Do(call) =>
      CallFits(m, s, call);
      OkNow(m);
      EditedAllFrom(m, CallEdits(Now(m).text, s, call), low);
    case Undo => UndoFrom(Resumed(m, consecutive), low);
    case Redo =>
      RestedOk(m);
      RedoFrom(Resumed(m, consecutive), low);
  }

  lemma RestedLinked(m: Model, low: int)
    ensures LinkedFrom(Rested(m), low) <==> LinkedFrom(m, low)
  {
  }

  /** Records that lead back stay so over every session, edits, undos and redos in
      any order and trimming included, and every record that the session adds
      leads back too, as long as no undo of it loses a write. */
  lemma {:induction false} SessionLinked(m: Model, s: seq<byte>, consecutive: bool, cs: seq<Command>, low: int)
    requires Runs(m, s, consecutive, cs) && LinkedFrom(m, low) && KeepsWrites(m, s, consecutive, cs)
    ensures LinkedFrom(After(m, s, consecutive, cs), low)
    decreases |cs|
  {
    hide Ok, Ready, After1, LinkedFrom, Keeps1;
    if cs != [] {
      StepLinked(m, s, consecutive, cs[0], low);
      SessionLinked(After1(m, s, consecutive, cs[0]), s, !cs[0].Do?, cs[1..], low);
    }
  }

  // The other direction

  lemma {:induction false} EditsDeadEnd(m: Model, es: seq<Edit>, i: nat)
    requires CanEditAll(m, es) && m.count + |es| < NB_LOGS_MAX
    ensures |m.records| <= |EditedAll(m, es).records|
    ensures DeadEnd(m, i) ==> DeadEnd(EditedAll(m, es), i)
    decreases |es|
  {
    hide Ok, CanEdit, Edited1, DeadEnd;
    if es != [] {
      AddsOne(m, es[0]);
      EditGrows(m, es[0]);
      if DeadEnd(m, i) { EditedDeadEnd(m, es[0], i); }
      EditsDeadEnd(Edited1(m, es[0]), es[1..], i);
    }
  }

  lemma EditGrows(m: Model, e: Edit)
    requires CanEdit(m, e) && !Full(m)
    ensures |m.records| <= |Edited1(m, e).records|
  {
    hide Told, Ok;
    EditReady(m, e);
  }

  lemma UndoGrows(m: Model)
    requires CanUndo(m) && !Full(m)
    ensures |m.records| <= |UndoStep(m).records|
  {
    hide UndoStep, Told, Undone, Counter, Fits;
    if m.cursor > 0 { UndoShape(m); } else { NoUndo(m); }
  }

  /** A step that neither redoes nor trims keeps a record that does not lead back. */
  lemma StepDeadEnd(m: Model, s: seq<byte>, consecutive: bool, c: Command, i: nat)
    requires Ready(m, s, consecutive, c) && !c.Redo? && m.count + Adds(c) < NB_LOGS_MAX
    ensures |m.records| <= |After1(m, s, consecutive, c).records|
    ensures DeadEnd(m, i) ==> DeadEnd(After1(m, s, consecutive, c), i)
  {
    hide Ok, EditedAll, CallEdits, UndoStep, Effect, CanUndo, CanEditAll, Linked;
    match c
    case Do(call) =>
      CallFits(m, s, call);
      OkNow(m);
      CallAdds(Now(m).text, s, call);
      EditsDeadEnd(m, CallEdits(Now(m).text, s, call), i);
    case Undo =>
      UndoGrows(Resumed(m, consecutive));
      if DeadEnd(m, i) { UndoDeadEnd(Resumed(m, consecutive), i); }
  }

  lemma {:induction false} SessionDeadEnd(m: Model, s: seq<byte>, consecutive: bool, cs: seq<Command>, i: nat)
    requires Runs(m, s, consecutive, cs) && RedoCount(cs) == 0 && m.count + AddsAll(cs) < NB_LOGS_MAX && DeadEnd(m, i)
    ensures DeadEnd(After(m, s, consecutive, cs), i)
    decreases |cs|
  {
    hide Ok, Ready, After1, DeadEnd;
    if cs != [] {
      StepDeadEnd(m, s, consecutive, cs[0], i);
      StepAdds(m, s, consecutive, cs[0]);
      SessionDeadEnd(After1(m, s, consecutive, cs[0]), s, !cs[0].Do?, cs[1..], i);
    }
  }

  lemma LostStep(m: Model, s: seq<byte>, consecutive: bool, c: Command)
    requires Ready(m, s, consecutive, c) && !Keeps1(m, consecutive, c) && m.count + Adds(c) < NB_LOGS_MAX
    ensures DeadEnd(After1(m, s, consecutive, c), |m.records|)
  {
    hide Ok, UndoStep, CanUndo, LosesWrite, DeadEnd;
    LostDeadEnd(Resumed(m, consecutive));
  }

  /** In a session without redo that cannot fill the log, the records lead back
      afterwards exactly when no undo of it has lost a write. */
  lemma {:induction false} SessionLinkedIff(m: Model, s: seq<byte>, consecutive: bool, cs: seq<Command>, low: nat)
    requires Runs(m, s, consecutive, cs) && RedoCount(cs) == 0 && m.count + AddsAll(cs) < NB_LOGS_MAX
    requires low <= |m.records| && LinkedFrom(m, low)
    ensures LinkedFrom(After(m, s, consecutive, cs), low) <==> KeepsWrites(m, s, consecutive, cs)
    decreases |cs|
  {
    hide Ok, Ready, After1, Keeps1, LinkedFrom, DeadEnd;
    if cs != [] {
      var k := After1(m, s, consecutive, cs[0]);
      StepAdds(m, s, consecutive, cs[0]);
      StepDeadEnd(m, s, consecutive, cs[0], 0);
      if Keeps1(m, consecutive, cs[0]) {
        StepLinked(m, s, consecutive, cs[0], low);
        SessionLinkedIff(k, s, !cs[0].Do?, cs[1..], low);
      } else {
        LostStep(m, s, consecutive, cs[0]);
        SessionDeadEnd(k, s, !cs[0].Do?, cs[1..], |m.records|);
        DeadUnlinked(After(m, s, consecutive, cs), low, |m.records|);
      }
    }
  }

  lemma DeadUnlinked(m: Model, low: nat, i: nat)
    requires DeadEnd(m, i) && low <= i
    ensures !LinkedFrom(m, low)
  {
    hide Linked;
  }

  // Undos after a session

  /** After any session that loses no write, k undos in a row give the moment
      before the last j records in the log, j being the undos that find one. */
  lemma SessionThenUndo(m: Model, s: seq<byte>, consecutive: bool, cs: seq<Command>, low: nat, k: nat)
    requires Runs(m, s, consecutive, cs) && KeepsWrites(m, s, consecutive, cs) && LinkedFrom(m, low)
    requires var a := After(m, s, consecutive, cs);
      Loggable(a) && (low == 0 || low <= |a.records| - k)
    ensures var a := After(m, s, consecutive, cs);
      var (c, q, j) := Walk(|a.records|, a.count, k);
      0 <= |a.records| - j < |a.moments| && Now(UndoMany(a, k)) == a.moments[|a.records| - j]
  {
    hide Runs, After, KeepsWrites, LinkedFrom, Walk, UndoMany, Ok, Loggable;
    var a := After(m, s, consecutive, cs);
    SessionLinked(m, s, consecutive, cs, low);
    LinkedBehind(a, low, |a.records| - k);
    UndoGives(a, k);
  }

  /** One undo gives the moment before the last record exactly when that record
      leads back. */
  lemma OneUndoGives(m: Model)
    requires Ok(m) && Loggable(m) && m.records != []
    ensures |m.moments| == |m.records| + 1
    ensures var n := |m.records| - 1;
      Now(UndoMany(m, 1)) == m.moments[n] <==> Linked(m.records, m.moments, n)
  {
    hide UndoStep, Told, Counter, Fits;
    RestedChain(m);
    ChainUndo(Rested(m));
    UndoShape(Rested(m));
    assert UndoMany(m, 0) == m;
  }

  /** The session and the undos on a buffer. */
  method SessionThenUndos(b: EditBuffer, src: PagedBuffer, cs: seq<Command>, k: nat, ghost low: nat)
    requires b.Valid() && !b.readOnly && src.Valid() && src != b.text && src != b.log.buf && src != b.watch.styles
    requires Runs(b.State(), src.Text(), false, cs) && KeepsWrites(b.State(), src.Text(), false, cs) && LinkedFrom(b.State(), low)
    requires Loggable(After(b.State(), src.Text(), false, cs))
    modifies b`modified, b`cursor, b`history, b.log, b.log.buf, b.watch`points, b.watch`origin, b.watch`cells, b.watch.styles, b.text, src`curPage, src`curOffset
    ensures b.Valid() && src.Valid()
    ensures var a := After(old(b.State()), src.Text(), false, cs);
      b.State() == UndoMany(a, k)
    ensures var a := After(old(b.State()), src.Text(), false, cs);
      var (c, q, j) := Walk(|a.records|, a.count, k);
      low == 0 || low <= |a.records| - k ==> 0 <= |a.records| - j < |a.moments| && b.Here() == a.moments[|a.records| - j]
  {
    hide Flat, PageOk, LogBytes, Mark, Survives, Ok, Walk, UndoMany, Runs, After, KeepsWrites, LinkedFrom;
    ghost var m := b.State();
    Session(b, src, false, cs);
    ghost var a := b.State();
    if low == 0 || low <= |a.records| - k { SessionThenUndo(m, src.Text(), false, cs, low, k); }
    Undos(b, k);
  }

  // Where undo fails

  /** A write, an undo, and another undo behind some other command: the second one
      does not give the written text back, which is the moment before the last
      record, unless the write changed nothing. */
  method WriteUndoUndo(b: EditBuffer, o: nat, d: seq<byte>)
    requires b.Valid() && !b.readOnly && 0 < |d| && o + |d| <= |b.text.Text()| && b.State().count + 2 < NB_LOGS_MAX
    modifies b`modified, b`cursor, b`history, b.log, b.log.buf, b.watch`points, b.watch`origin, b.watch`cells, b.watch.styles, b.text
    ensures var m, e := old(b.State()), Edit(OpWrite, o, |d|, d);
      && CanEdit(m, e) && CanUndo(Rested(Edited1(m, e)))
      && var u := Undo1(Edited1(m, e), false);
        && b.Valid() && |u.records| > 0 && |u.moments| == |u.records| + 1
        && u.moments[|u.records| - 1].text == Overwritten(old(b.text.Text()), o, d) && b.text.Text() == old(b.text.Text())
    ensures b.text.Text() == Overwritten(old(b.text.Text()), o, d) <==> old(b.text.Text())[o..o + |d|] == d
  {
    hide Flat, PageOk, LogBytes, Mark, Survives, Ok, Edited1, UndoStep;
    ghost var m, e := b.State(), Edit(OpWrite, o, |d|, d);
    OkNow(m);
    OkCount(m);
    SameWrite(b.text.Text(), o, d);
    b.Overwrite(o, d);
    WriteTwiceUndone(m, e);
    var _ := b.Undo(false);
    var _ := b.Undo(false);
  }

  lemma WriteTwiceUndone(m: Model, e: Edit)
    requires CanEdit(m, e) && e.op == OpWrite && m.count + 2 < NB_LOGS_MAX
    ensures CanUndo(Rested(Edited1(m, e)))
    ensures var u := Undo1(Edited1(m, e), false);
      && CanUndo(Rested(u)) && |u.records| > 0 && |u.moments| == |u.records| + 1
      && u.moments[|u.records| - 1].text == Overwritten(Now(m).text, e.offset, e.data)
      && Now(Undo1(u, false)).text == Now(m).text
  {
    hide Undone, Counter, Told, UndoStep, Ok, Edited1;
    OkNow(m);
    var k, s := Edited1(m, e), Now(m);
    EditWrites(m, e);
    OkNow(k);
    RestedChain(k);
    RestedSame(k);
    ChainUndo(Rested(k));
    UndoShape(Rested(k));
    var u := UndoStep(Rested(k));
    var r := k.records[|k.records| - 1];
    TwiceWritten(s, e.offset, e.data, r, Now(k));
    RestedChain(u);
    RestedSame(u);
    ChainUndo(Rested(u));
    UndoShape(Rested(u));
  }
}
