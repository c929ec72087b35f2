/** Whole sessions on an edit buffer: any commands, among them undos and redos
    (buffer.c), with what they make of the text, the log and the side tables. */
module UndoSessions {
  import opened Bytes
  import opened Pages
  import opened PagedText
  import opened PagedOps
  import opened UndoRecords
  import opened UndoLogs
  import opened SideTables
  import opened UndoModels
  import opened UndoTheorems
  import opened UndoRedos
  import opened UndoLinks
  import opened EditBuffers

  // Calls

  /** The logged edits of one call. */
  function CallEdits(t: seq<byte>, s: seq<byte>, c: Call): seq<Edit> {
    match c
    case CallRead(_, _) => []
    case CallWrite(o, d) => WriteEdits(t, o, d)
    case CallInsert(o, d) => if o < 0 then [] else InsertEdit(Min(o, |t|), d)
    case CallDelete(o, n) => if o < 0 || o >= |t| || n <= 0 then [] else [Edit(OpDelete, o, Min(n, |t| - o), [])]
    case CallCopy(o, f, n) => if o < 0 then [] else InsertEdit(Min(o, |t|), Window(s, f, n))
  }

  /** The edits of a call can be made, and they have the effect of the call. */
  lemma CallFits(m: Model, s: seq<byte>, c: Call)
    requires Ok(m) && Loggable(m) && |Effect(Now(m).text, s, c)| < TWO31
    ensures var es := CallEdits(Now(m).text, s, c);
      CanEditAll(m, es) && Now(EditedAll(m, es)).text == Effect(Now(m).text, s, c)
  {
    hide Ok, Edited1, Window;
    OkNow(m);
    var t := Now(m).text;
    NoEdits(m);
    match c
    case CallRead(_, _) =>
    case CallWrite(o, d) => WriteFits(m, o, d);
    case CallInsert(o, d) => if o >= 0 { InsertFits(m, Min(o, |t|), d); }
    case CallDelete(o, n) =>
      if 0 <= o < |t| && n > 0 {
        OkNow(m);
        OneEdit(m, Edit(OpDelete, o, Min(n, |t| - o), []));
      }
    case CallCopy(o, f, n) => if o >= 0 { InsertFits(m, Min(o, |t|), Window(s, f, n)); }
  }

  lemma InsertFits(m: Model, o: nat, d: seq<byte>)
    requires Ok(m) && Loggable(m) && o <= |Now(m).text| && |Now(m).text| + |d| < TWO31
    ensures CanEditAll(m, InsertEdit(o, d)) && Now(EditedAll(m, InsertEdit(o, d))).text == Inserted(Now(m).text, o, d)
  {
    hide Ok, Edited1;
    OkNow(m);
    NoEdits(m);
    InsertNothing(Now(m).text, o);
    if d != [] { OneEdit(m, Edit(OpInsert, o, |d|, d)); }
  }

  lemma OverwriteFits(m: Model, o: nat, d: seq<byte>)
    requires Ok(m) && Loggable(m) && o + |d| <= |Now(m).text|
    ensures CanEditAll(m, WriteEdit(o, d)) && Now(EditedAll(m, WriteEdit(o, d))).text == Overwritten(Now(m).text, o, d)
  {
    hide Ok, Edited1;
    OkNow(m);
    NoEdits(m);
    OverwriteNothing(Now(m).text, o, d);
    if d != [] { OneEdit(m, Edit(OpWrite, o, |d|, d)); } else { assert d[..0] == d; }
  }

  lemma WriteFits(m: Model, o: int, d: seq<byte>)
    requires Ok(m) && Loggable(m) && |WriteAnywhere(Now(m).text, o, d)| < TWO31
    ensures CanEditAll(m, WriteEdits(Now(m).text, o, d)) && Now(EditedAll(m, WriteEdits(Now(m).text, o, d))).text == WriteAnywhere(Now(m).text, o, d)
  {
    hide Ok, Edited1, Overwritten, Inserted, WriteAnywhere, CanEditAll, EditedAll, WriteEdit, InsertEdit;
    OkNow(m);
    var t := Now(m).text;
    NoEdits(m);
    WriteNowhere(t, o, d);
    if 0 <= o <= |t| && d != [] {
      var w := Min(|d|, |t| - o);
      WriteIsOverwriteThenInsert(t, o, d);
      OverwriteFits(m, o, d[..w]);
      InsertFits(EditedAll(m, WriteEdit(o, d[..w])), o + w, d[w..]);
      EditsAppend(m, WriteEdit(o, d[..w]), InsertEdit(o + w, d[w..]));
    }
  }

  /** No text of the run is longer than an int can say. */
  ghost predicate StaySmall(t: seq<byte>, s: seq<byte>, calls: seq<Call>)
    decreases |calls|
  {
    |t| < TWO31 && (calls == [] || StaySmall(Effect(t, s, calls[0]), s, calls[1..]))
  }

  lemma SmallStep(t: seq<byte>, s: seq<byte>, calls: seq<Call>)
    requires calls != [] && StaySmall(t, s, calls)
    ensures |Effect(t, s, calls[0])| < TWO31 && StaySmall(Effect(t, s, calls[0]), s, calls[1..])
  {
  }

  /** A buffer after a run of calls: records and moments, with coalescing and
      trimming, and the side tables. */
  ghost function AfterCalls(m: Model, s: seq<byte>, calls: seq<Call>): (k: Model)
    requires Ok(m) && Loggable(m) && StaySmall(Now(m).text, s, calls)
    ensures Ok(k) && Loggable(k) && k.count - |k.records| == m.count - |m.records|
    decreases |calls|
  {
    if calls == [] then m
    else
      SmallStep(Now(m).text, s, calls);
      CallFits(m, s, calls[0]);
      AfterCalls(EditedAll(m, CallEdits(Now(m).text, s, calls[0])), s, calls[1..])
  }

  lemma {:induction false} RunText(m: Model, s: seq<byte>, calls: seq<Call>)
    requires Ok(m) && Loggable(m) && StaySmall(Now(m).text, s, calls)
    ensures Now(AfterCalls(m, s, calls)).text == FlatRun(Now(m).text, s, calls).0
    decreases |calls|
  {
    hide Ok, EditedAll, CallEdits, Effect, CanEditAll;
    OkNow(m);
    if calls != [] {
      SmallStep(Now(m).text, s, calls);
      CallFits(m, s, calls[0]);
      RunText(EditedAll(m, CallEdits(Now(m).text, s, calls[0])), s, calls[1..]);
    }
  }

  /** Every record of a run leads back to the moment before it, whatever the
      records before the run do. */
  lemma {:induction false} RunLinked(m: Model, s: seq<byte>, calls: seq<Call>, low: int)
    requires Ok(m) && Loggable(m) && StaySmall(Now(m).text, s, calls) && LinkedFrom(m, low)
    ensures LinkedFrom(AfterCalls(m, s, calls), low)
    decreases |calls|
  {
    hide Ok, EditedAll, CallEdits, Effect, CanEditAll, LinkedFrom;
    OkNow(m);
    if calls != [] {
      SmallStep(Now(m).text, s, calls);
      CallFits(m, s, calls[0]);
      EditedAllFrom(m, CallEdits(Now(m).text, s, calls[0]), low);
      RunLinked(EditedAll(m, CallEdits(Now(m).text, s, calls[0])), s, calls[1..], low);
    }
  }

  // Sessions

  /** A command; undo and redo keep log_current only when the command before was
      one of them. */
  datatype Command = Do(call: Call) | Undo | Redo

  /** What a command needs: small texts, a record to trim when the log is full,
      and for an undo a text of the length it expects. */
  ghost predicate Ready(m: Model, s: seq<byte>, consecutive: bool, c: Command) {
    Ok(m) &&
    match c
    case Do(call) => Loggable(m) && |Effect(Now(m).text, s, call)| < TWO31
    case Undo => CanUndo(if consecutive then m else Rested(m))
    case Redo => true
  }

  ghost function After1(m: Model, s: seq<byte>, consecutive: bool, c: Command): (k: Model)
    requires Ready(m, s, consecutive, c)
    ensures Ok(k)
  {
    match c
    case Do(call) =>
      CallFits(m, s, call);
      EditedAll(m, CallEdits(Now(m).text, s, call))
    case Undo => Undo1(m, consecutive)
    case Redo => Redo1(m, consecutive)
  }

  ghost predicate Runs(m: Model, s: seq<byte>, consecutive: bool, cs: seq<Command>)
    decreases |cs|
  {
    Ok(m) && (cs == [] || (Ready(m, s, consecutive, cs[0]) && Runs(After1(m, s, consecutive, cs[0]), s, !cs[0].Do?, cs[1..])))
  }

  /** A buffer after a session. */
  ghost function After(m: Model, s: seq<byte>, consecutive: bool, cs: seq<Command>): (k: Model)
    requires Runs(m, s, consecutive, cs)
    ensures Ok(k)
    decreases |cs|
  {
    if cs == [] then m else After(After1(m, s, consecutive, cs[0]), s, !cs[0].Do?, cs[1..])
  }

  method StepInsert(b: EditBuffer, o: int, d: seq<byte>)
    requires b.Valid() && !b.readOnly
    requires Loggable(b.State()) && |Effect(b.text.Text(), [], CallInsert(o, d))| < TWO31
    modifies b`modified, b`cursor, b`history, b.log, b.log.buf, b.watch`points, b.watch`origin, b.watch`cells, b.watch.styles, b.text
    ensures b.Valid()
    ensures var m, es := old(b.State()), CallEdits(old(b.text.Text()), [], CallInsert(o, d));
      CanEditAll(m, es) && b.State() == EditedAll(m, es)
  {
    hide Flat, PageOk, LogBytes, Mark, Survives, Watchers.Valid, UndoLog.Valid, UndoLog.At, Ok, Edited1, CanEdit, InsertAnywhere, DeleteAnywhere, Window, CanEditAll, EditedAll;
    ghost var m := b.State();
    OkNow(m);
    NoEdits(m);
    var n := b.Insert(o, d);
    if n > 0 { OneEdit(m, Edit(OpInsert, Min(o, |Now(m).text|), n, d)); }
  }

  method StepDelete(b: EditBuffer, o: int, k: int)
    requires b.Valid() && !b.readOnly
    requires Loggable(b.State()) && |Effect(b.text.Text(), [], CallDelete(o, k))| < TWO31
    modifies b`modified, b`cursor, b`history, b.log, b.log.buf, b.watch`points, b.watch`origin, b.watch`cells, b.watch.styles, b.text
    ensures b.Valid()
    ensures var m, es := old(b.State()), CallEdits(old(b.text.Text()), [], CallDelete(o, k));
      CanEditAll(m, es) && b.State() == EditedAll(m, es)
  {
    hide Flat, PageOk, LogBytes, Mark, Survives, Watchers.Valid, UndoLog.Valid, UndoLog.At, Ok, Edited1, CanEdit, InsertAnywhere, DeleteAnywhere, Window, CanEditAll, EditedAll;
    ghost var m := b.State();
    OkNow(m);
    NoEdits(m);
    DeleteClip(Now(m).text, o, k);
    var n := b.Delete(o, k);
    if n > 0 { OneEdit(m, Edit(OpDelete, o, n, [])); }
  }

  method StepCopy(b: EditBuffer, o: int, src: PagedBuffer, f: int, k: int)
    requires b.Valid() && !b.readOnly && src.Valid() && src != b.text && src != b.log.buf && src != b.watch.styles
    requires Loggable(b.State()) && |Effect(b.text.Text(), src.Text(), CallCopy(o, f, k))| < TWO31
    modifies b`modified, b`cursor, b`history, b.log, b.log.buf, b.watch`points, b.watch`origin, b.watch`cells, b.watch.styles, b.text, src`curPage, src`curOffset
    ensures b.Valid() && src.Valid()
    ensures var m, es := old(b.State()), CallEdits(old(b.text.Text()), src.Text(), CallCopy(o, f, k));
      CanEditAll(m, es) && b.State() == EditedAll(m, es)
  {
    hide Flat, PageOk, LogBytes, Mark, Survives, Watchers.Valid, UndoLog.Valid, UndoLog.At, Ok, Edited1, CanEdit, InsertAnywhere, DeleteAnywhere, Window, CanEditAll, EditedAll;
    ghost var m := b.State();
    OkNow(m);
    NoEdits(m);
    var n := b.InsertBuffer(o, src, f, k);
    if n > 0 { OneEdit(m, Edit(OpInsert, Min(o, |Now(m).text|), n, Window(src.Text(), f, k))); }
  }

  /** One call on the edit buffer. */
  method Step(b: EditBuffer, src: PagedBuffer, call: Call) returns (seen: seq<seq<byte>>)
    requires b.Valid() && !b.readOnly && src.Valid() && src != b.text && src != b.log.buf && src != b.watch.styles
    requires Ready(b.State(), src.Text(), false, Do(call))
    modifies b`modified, b`cursor, b`history, b.log, b.log.buf, b.watch`points, b.watch`origin, b.watch`cells, b.watch.styles, b.text, src`curPage, src`curOffset
    ensures b.Valid() && src.Valid() && b.State() == After1(old(b.State()), src.Text(), false, Do(call))
    ensures seen == if call.CallRead? then [Window(old(b.text.Text()), call.offset, call.size)] else []
  {
    hide Flat, PageOk, LogBytes, Mark, Survives, Ok, InsertAnywhere, DeleteAnywhere, WriteAnywhere, Window, CanEditAll, EditedAll, WriteEdits, InsertEdit;
    seen := [];
    ghost var m := b.State();
    OkNow(m);
    NoEdits(m);
    match call {
      case CallRead(o, n) =>
        var r := b.text.Read(o, n);
        seen := [r];
      case CallWrite(o, d) =>
        var _ := b.Write(o, d);
      case CallInsert(o, d) =>
        StepInsert(b, o, d);
      case CallDelete(o, k) =>
        StepDelete(b, o, k);
      case CallCopy(o, f, k) =>
        StepCopy(b, o, src, f, k);
    }
  }

  lemma DeleteClip(t: seq<byte>, o: int, n: int)
    ensures |t| - |DeleteAnywhere(t, o, n)| == if o < 0 || o >= |t| || n <= 0 then 0 else Min(n, |t| - o)
  {
  }

  /** Every session on a buffer is the session on its value: text, modified flag,
      log, offsets, origins and styles, undo and redo included. */
  method Session(b: EditBuffer, src: PagedBuffer, consecutive: bool, cs: seq<Command>)
    requires b.Valid() && !b.readOnly && src.Valid() && src != b.text && src != b.log.buf && src != b.watch.styles
    requires Runs(b.State(), src.Text(), consecutive, cs)
    modifies b`modified, b`cursor, b`history, b.log, b.log.buf, b.watch`points, b.watch`origin, b.watch`cells, b.watch.styles, b.text, src`curPage, src`curOffset
    ensures b.Valid() && src.Valid() && b.State() == After(old(b.State()), src.Text(), consecutive, cs)
    decreases |cs|
  {
    hide Flat, PageOk, LogBytes, Mark, Survives, Ok, EditedAll, CallEdits, UndoStep, RedoStep, Ready;
    if cs == [] { return; }
    ReadyParts(b.State(), src.Text(), consecutive, cs[0]);
    match cs[0] {
      case Do(call) =>
        var _ := Step(b, src, call);
      case Undo =>
        var _ := b.Undo(consecutive);
      case Redo =>
        var _ := b.Redo(consecutive);
    }
    Session(b, src, !cs[0].Do?, cs[1..]);
  }

  lemma ReadyParts(m: Model, s: seq<byte>, consecutive: bool, c: Command)
    requires Ready(m, s, consecutive, c)
    ensures c.Do? ==> Ready(m, s, false, c)
    ensures c.Undo? ==> CanUndo(if consecutive then m else Rested(m))
  {
  }

  // Side tables

  /** Offsets, origins and styles stand to the text as they stood to the start. */
  ghost predicate Lockstep(start: Side, text: seq<byte>, m: Model)
    requires m.moments != []
  {
    InStep(start, m.side) && Survives(text, m.side.origin, Now(m).text)
  }

  lemma ToldLockstep(start: Side, text: seq<byte>, m: Model, k: Model, op: Op, offset: nat, size: nat, d: seq<byte>)
    requires m.moments != [] && k.moments != [] && Lockstep(start, text, m) && SideOk(m.side) && Within(|m.side.origin|, op, offset, size)
    requires k.side == Told(m.side, op, offset, size) && Changed(Now(m).text, op, offset, size, d, Now(k).text)
    ensures Lockstep(start, text, k)
  {
    hide InStep, Survives, Edited, Changed, Restyled, Moved;
    ToldInStep(start, m.side, op, offset, size);
    ChangedEdited(Now(m).text, op, offset, size, d, Now(k).text);
    EditedSurvives(text, m.side.origin, Now(m).text, op, offset, size, Now(k).text);
  }

  lemma EditLockstep(start: Side, text: seq<byte>, m: Model, e: Edit)
    requires CanEdit(m, e) && Lockstep(start, text, m)
    ensures Lockstep(start, text, Edited1(m, e))
  {
    hide Lockstep, Told, Edited1, Ok, Recorded, Fits, Changed;
    EditSide(m, e);
    ToldLockstep(start, text, m, Edited1(m, e), e.op, e.offset, e.size, e.data);
  }

  lemma EditSide(m: Model, e: Edit)
    requires CanEdit(m, e)
    ensures m.moments != [] && SideOk(m.side) && Within(|m.side.origin|, e.op, e.offset, e.size)
    ensures Edited1(m, e).side == Told(m.side, e.op, e.offset, e.size) && Edited1(m, e).moments != []
    ensures Changed(Now(m).text, e.op, e.offset, e.size, e.data, Now(Edited1(m, e)).text)
  {
    hide Told, Fits;
    EditReady(m, e);
    EditChanges(Now(m), e);
  }

  lemma {:induction false} EditsLockstep(start: Side, text: seq<byte>, m: Model, es: seq<Edit>)
    requires CanEditAll(m, es) && m.moments != [] && Lockstep(start, text, m)
    ensures EditedAll(m, es).moments != [] && Lockstep(start, text, EditedAll(m, es))
    decreases |es|
  {
    hide Lockstep, Edited1, Ok;
    if es != [] {
      EditLockstep(start, text, m, es[0]);
      OkNow(Edited1(m, es[0]));
      EditsLockstep(start, text, Edited1(m, es[0]), es[1..]);
    }
  }

  lemma UndoLockstep(start: Side, text: seq<byte>, m: Model)
    requires CanUndo(m) && m.moments != [] && Lockstep(start, text, m)
    ensures UndoStep(m).moments != [] && Lockstep(start, text, UndoStep(m))
  {
    hide Lockstep, Told, Changed, Undone, Fits, Moved, Restyled;
    if m.cursor > 0 {
      UndoShape(m);
      var r, s := m.records[m.cursor - 1], Now(m);
      UndoneChanges(r, s);
      ToldLockstep(start, text, m, UndoStep(m), CounterOp(r.op), r.offset, r.size, r.data);
    }
  }

  lemma RedoLockstep(start: Side, text: seq<byte>, m: Model)
    requires Ok(m) && m.moments != [] && Lockstep(start, text, m)
    ensures RedoStep(m).moments != [] && Lockstep(start, text, RedoStep(m))
  {
    hide Lockstep, Told, Changed, Undone, Fits, Moved, Restyled, RedoStep;
    NoRedo(m);
    if m.undoing {
      RedoShape(m);
      var r, s := m.records[|m.records| - 1], Now(m);
      UndoneChanges(r, s);
      ToldLockstep(start, text, m, RedoStep(m), CounterOp(r.op), r.offset, r.size, r.data);
    }
  }

  lemma RestedLockstep(start: Side, text: seq<byte>, m: Model)
    requires m.moments != [] && Lockstep(start, text, m)
    ensures Lockstep(start, text, Rested(m))
  {
  }

  /** Side tables stay in lockstep over every session with edits, undos and
      redos. */
  lemma {:induction false} SessionLockstep(start: Side, text: seq<byte>, m: Model, s: seq<byte>, consecutive: bool, cs: seq<Command>)
    requires Runs(m, s, consecutive, cs) && m.moments != [] && Lockstep(start, text, m)
    ensures After(m, s, consecutive, cs).moments != [] && Lockstep(start, text, After(m, s, consecutive, cs))
    decreases |cs|
  {
    hide Lockstep, Ok, EditedAll, CallEdits, UndoStep, RedoStep, CanEditAll, Effect, CanUndo;
    if cs != [] {
      RestedLockstep(start, text, m);
      match cs[0] {
        case Do(call) =>
          CallFits(m, s, call);
          EditsLockstep(start, text, m, CallEdits(Now(m).text, s, call));
        case Undo =>
          UndoLockstep(start, text, if consecutive then m else Rested(m));
        case Redo =>
          RestedOk(m);
          RedoLockstep(start, text, if consecutive then m else Rested(m));
      }
      SessionLockstep(start, text, After1(m, s, consecutive, cs[0]), s, !cs[0].Do?, cs[1..]);
    }
  }

  // Undo and redo in a row

  /** k undos in a row, the first after some other command. */
  method Undos(b: EditBuffer, k: nat)
    requires b.Valid() && !b.readOnly && Loggable(b.State())
    modifies b`modified, b`cursor, b`history, b.log, b.log.buf, b.watch`points, b.watch`origin, b.watch`cells, b.watch.styles, b.text
    ensures b.Valid() && b.State() == UndoMany(old(b.State()), k)
  {
    hide Flat, PageOk, LogBytes, Mark, Survives, Ok, UndoStep, InChain, CanUndo;
    ghost var m := b.State();
    for i := 0 to k
      invariant b.Valid() && b.State() == UndoMany(m, i)
    {
      RestedChain(UndoMany(m, i));
      ChainUndo(if i > 0 then UndoMany(m, i) else Rested(UndoMany(m, i)));
      var _ := b.Undo(i > 0);
    }
  }

  /** j redos in a row, after an undo. */
  method Redos(b: EditBuffer, j: nat)
    requires b.Valid() && !b.readOnly
    modifies b`modified, b`cursor, b`history, b.log, b.log.buf, b.watch`points, b.watch`origin, b.watch`cells, b.watch.styles, b.text
    ensures b.Valid() && b.State() == RedoMany(old(b.State()), j)
  {
    hide Flat, PageOk, LogBytes, Mark, Survives, Ok, RedoStep;
    ghost var m := b.State();
    for i := 0 to j
      invariant b.Valid() && b.State() == RedoMany(m, i)
    {
      var _ := b.Redo(true);
    }
  }

  /** A run of calls. */
  method Edits(b: EditBuffer, src: PagedBuffer, calls: seq<Call>) returns (seen: seq<seq<byte>>)
    requires b.Valid() && !b.readOnly && src.Valid() && src != b.text && src != b.log.buf && src != b.watch.styles
    requires Loggable(b.State()) && StaySmall(b.text.Text(), src.Text(), calls)
    modifies b`modified, b`cursor, b`history, b.log, b.log.buf, b.watch`points, b.watch`origin, b.watch`cells, b.watch.styles, b.text, src`curPage, src`curOffset
    ensures b.Valid() && src.Valid() && b.State() == AfterCalls(old(b.State()), src.Text(), calls)
    ensures (b.text.Text(), seen) == FlatRun(old(b.text.Text()), src.Text(), calls)
    decreases |calls|
  {
    hide Flat, PageOk, LogBytes, Mark, Survives, Ok, EditedAll, CallEdits, Effect, Window;
    if calls == [] { return []; }
    ghost var m := b.State();
    OkNow(m);
    SmallStep(b.text.Text(), src.Text(), calls);
    CallFits(m, src.Text(), calls[0]);
    var first := Step(b, src, calls[0]);
    var rest := Edits(b, src, calls[1..]);
    seen := first + rest;
  }

  /** Undo over runs of calls: after any run, k undos in a row give the moment
      before the last j records that the run has left in the log, where j is the
      number of undos that find one. The records that were there before have to
      lead back from low on, and the undos to stay behind low. */
  method EditsThenUndo(b: EditBuffer, src: PagedBuffer, calls: seq<Call>, k: nat, ghost low: nat)
    requires b.Valid() && !b.readOnly && src.Valid() && src != b.text && src != b.log.buf && src != b.watch.styles
    requires LinkedFrom(b.State(), low) && Loggable(b.State()) && StaySmall(b.text.Text(), src.Text(), calls)
    modifies b`modified, b`cursor, b`history, b.log, b.log.buf, b.watch`points, b.watch`origin, b.watch`cells, b.watch.styles, b.text, src`curPage, src`curOffset
    ensures b.Valid() && src.Valid()
    ensures var m := AfterCalls(old(b.State()), src.Text(), calls);
      && Now(m).text == FlatRun(old(b.text.Text()), src.Text(), calls).0 && b.State() == UndoMany(m, k)
    ensures var m := AfterCalls(old(b.State()), src.Text(), calls);
      var (c, q, j) := Walk(|m.records|, m.count, k);
      low == 0 || low <= |m.records| - k ==> 0 <= |m.records| - j < |m.moments| && b.Here() == m.moments[|m.records| - j]
  {
    hide Flat, PageOk, LogBytes, Mark, Survives, Ok, Walk, UndoMany, AfterCalls, FlatRun, LinkedFrom;
    ghost var m0 := b.State();
    OkNow(m0);
    var _ := Edits(b, src, calls);
    ghost var m := b.State();
    RunText(m0, src.Text(), calls);
    RunLinked(m0, src.Text(), calls, low);
    if low == 0 || low <= |m.records| - k {
      LinkedBehind(m, low, |m.records| - k);
      UndoGives(m, k);
    }
    Undos(b, k);
  }

  lemma LinkedBehind(m: Model, low: int, high: int)
    requires LinkedFrom(m, low) && (low <= 0 || low <= high)
    ensures LinkedFrom(m, high)
  {
  }

  /** k undos and j redos, nothing trimmed. The bytes that Lost names are those
      that redo does not give back; with j = k the log is again that of the
      start, byte for byte. */
  method UndosThenRedos(b: EditBuffer, k: nat, j: nat)
    requires b.Valid() && !b.readOnly && 0 < k && j <= k <= |b.State().records| && b.State().count + k < NB_LOGS_MAX
    requires LinkedFrom(b.State(), |b.State().records| - k)
    modifies b`modified, b`cursor, b`history, b.log, b.log.buf, b.watch`points, b.watch`origin, b.watch`cells, b.watch.styles, b.text
    ensures b.Valid()
    ensures var m := old(b.State());
      && Loggable(m) && b.State() == RedoMany(UndoMany(m, k), j) && |m.moments| == |m.records| + 1
      && DifferAt(b.text.Text(), m.moments[|m.records| - k + j].text, Lost(m, |m.records| - k, j))
      && b.modified == m.moments[|m.records| - k + j].modified
    ensures j == k ==> !b.State().undoing && b.State().records == old(b.State()).records && b.log.buf.Text() == old(b.log.buf.Text())
  {
    hide Flat, PageOk, LogBytes, Mark, Survives, Ok, UndoMany, RedoMany, Lost, DifferAt, LinkedFrom;
    ghost var m := b.State();
    OkNow(m);
    OkCount(m);
    UndoRedo(m, k, j);
    EndOf(m, k, j);
    Undos(b, k);
    Redos(b, j);
  }

  lemma OkCount(m: Model)
    requires Ok(m) && m.count < NB_LOGS_MAX - 1
    ensures Loggable(m)
  {
  }

  lemma EndOf(m: Model, k: nat, j: nat)
    requires Ok(m) && Loggable(m) && 0 < k <= |m.records| && j <= k && LinkedFrom(m, |m.records| - k) && m.count + k < NB_LOGS_MAX
    ensures var r := RedoMany(UndoMany(m, k), j);
      && (j == k ==> r.records == m.records && !r.undoing)
      && DifferAt(Now(r).text, m.moments[|m.records| - k + j].text, Lost(m, |m.records| - k, j))
      && Now(r).modified == m.moments[|m.records| - k + j].modified
  {
    hide UndoMany, RedoMany, Lost, DifferAt;
    UndoRedo(m, k, j);
    if j == k { EndForth(m, k, RedoMany(UndoMany(m, k), k)); }
  }

  // Where redo and trimming fail

  lemma WriteLost(m: Model, e: Edit)
    requires CanEdit(m, e) && e.op == OpWrite && m.count + 2 < NB_LOGS_MAX
    ensures var k := Edited1(m, e);
      && CanUndo(Rested(k)) && Undo1(k, false).undoing && Now(Redo1(Undo1(k, false), true)).text == Now(m).text
  {
    hide Undone, Counter, Told;
    var k, s := Edited1(m, e), Now(m);
    EditWrites(m, e);
    RestedChain(k);
    ChainUndo(Rested(k));
    var u := UndoStep(Rested(k));
    UndoShape(Rested(k));
    RedoShape(u);
    var r := k.records[|k.records| - 1];
    assert u.records[|u.records| - 1] == Counter(r, Now(k));
    TwiceWritten(s, e.offset, e.data, r, Now(k));
  }

  /** The record of a write is the last one. */
  lemma EditWrites(m: Model, e: Edit)
    requires CanEdit(m, e) && e.op == OpWrite && m.count + 2 < NB_LOGS_MAX
    ensures var k := Edited1(m, e);
      && |k.records| > 0 && k.records[|k.records| - 1] == Recorded(Now(m), OpWrite, e.offset, e.size) && !Full(k)
      && Now(k) == Snap(Overwritten(Now(m).text, e.offset, e.data), true)
  {
    hide Told, Ok;
    EditReady(m, e);
  }

  lemma TwiceWritten(s: Snap, o: nat, d: seq<byte>, r: Record, after: Snap)
    requires 0 < |d| && o + |d| <= |s.text| && o + |d| < TWO31
    requires r == Recorded(s, OpWrite, o, |d|) && after == Snap(Overwritten(s.text, o, d), true)
    ensures Applies(r, after.text) && Undone(r, after) == s
    ensures Applies(Counter(r, after), s.text) && Undone(Counter(r, after), s).text == s.text
  {
    WriteLinks(s, o, d, true);
    UndoneIs(r, s, after);
    assert Overwritten(s.text, o, s.text[o..o + |d|]) == s.text;
  }

  /** Whatever is written, undone and redone is not there: the text is the one
      before the write, so the redo gives the write back exactly when it changed
      nothing. */
  method WriteUndoRedo(b: EditBuffer, o: nat, d: seq<byte>)
    requires b.Valid() && !b.readOnly && 0 < |d| && o + |d| <= |b.text.Text()| && b.State().count + 2 < NB_LOGS_MAX
    modifies b`modified, b`cursor, b`history, b.log, b.log.buf, b.watch`points, b.watch`origin, b.watch`cells, b.watch.styles, b.text
    ensures b.Valid() && b.text.Text() == old(b.text.Text())
    ensures b.text.Text() == Overwritten(old(b.text.Text()), o, d) <==> old(b.text.Text())[o..o + |d|] == d
  {
    hide Flat, PageOk, LogBytes, Mark, Survives, Ok, Edited1, UndoStep, RedoStep;
    ghost var m, e := b.State(), Edit(OpWrite, o, |d|, d);
    OkNow(m);
    OkCount(m);
    SameWrite(b.text.Text(), o, d);
    b.Overwrite(o, d);
    WriteLost(m, e);
    var _ := b.Undo(false);
    var _ := b.Redo(true);
  }

  lemma SameWrite(t: seq<byte>, o: nat, d: seq<byte>)
    requires o + |d| <= |t|
    ensures t == Overwritten(t, o, d) <==> t[o..o + |d|] == d
  {
    var u := Overwritten(t, o, d);
    assert u[o..o + |d|] == d;
    if t[o..o + |d|] == d { assert u == t; }
  }

  /** One record in a log that counts more: what every undo and redo in turn
      leaves. */
  ghost predicate OneRecord(m: Model, count: int) {
    Ok(m) && |m.records| == 1 && m.count == count && !m.undoing
  }

  lemma PairCounts(m: Model, count: int)
    requires OneRecord(m, count) && 1 <= count < NB_LOGS_MAX - 1
    ensures CanUndo(Rested(m)) && OneRecord(Redo1(Undo1(m, false), true), count + 1)
  {
    hide Told, Undone, Counter, Ok;
    OneOk(m, count);
    RestedChain(m);
    ChainUndo(Rested(m));
    UndoShape(Rested(m));
    RedoShape(UndoStep(Rested(m)));
  }

  lemma OneOk(m: Model, count: int)
    requires OneRecord(m, count)
    ensures Ok(m) && Loggable(m)
  {
  }

  /** When the log is full the undo trims the record it plays, and the redo
      removes the only one left. */
  lemma PairEmpties(m: Model)
    requires OneRecord(m, NB_LOGS_MAX - 1)
    ensures CanUndo(Rested(m)) && var k := Redo1(Undo1(m, false), true);
      !Loggable(k) && k.records == []
  {
    hide Told, Undone, Counter, Ok;
    OneOk(m, NB_LOGS_MAX - 1);
    RestedChain(m);
    ChainUndo(Rested(m));
    UndoShape(Rested(m));
    RedoShape(UndoStep(Rested(m)));
  }

  /** do_redo does not count down, so undoing and redoing one insert often
      enough leaves a log that is full and has no record: the next eb_addlog
      would trim one that is not there. */
  method FillByRedo(b: EditBuffer)
    requires b.Valid() && !b.readOnly && b.State().records == [] && b.State().count == 0 && !b.State().undoing && |b.text.Text()| + 1 < TWO31
    modifies b`modified, b`cursor, b`history, b.log, b.log.buf, b.watch`points, b.watch`origin, b.watch`cells, b.watch.styles, b.text
    ensures b.Valid() && !Loggable(b.State()) && b.State().records == []
  {
    hide Flat, PageOk, LogBytes, Mark, Survives, Ok, Edited1, UndoStep, RedoStep, InsertAnywhere;
    ghost var m := b.State();
    OkNow(m);
    InsertClip(b.text.Text(), 0, [97]);
    var n := b.Insert(0, [97]);
    FirstRecord(m, Edit(OpInsert, 0, 1, [97]));
    for i := 1 to NB_LOGS_MAX - 1
      invariant b.Valid() && OneRecord(b.State(), i)
    {
      PairCounts(b.State(), i);
      var _ := b.Undo(false);
      var _ := b.Redo(true);
    }
    PairEmpties(b.State());
    var _ := b.Undo(false);
    var _ := b.Redo(true);
  }

  lemma FirstRecord(m: Model, e: Edit)
    requires CanEdit(m, e) && m.records == [] && m.count == 0 && !m.undoing
    ensures OneRecord(Edited1(m, e), 1)
  {
    hide Told, Ok;
    EditReady(m, e);
  }
}
