/** The edit buffer of buffer.c: a paged text, its callbacks and its undo log,
    proved against UndoModels. */
module EditBuffers {
  import opened Bytes
  import opened Pages
  import opened PagedText
  import PagedOps
  import opened UndoRecords
  import opened UndoLogs
  import opened SideTables
  import opened UndoModels

  /** The exact change of the text. */
  ghost predicate Changed(t: seq<byte>, op: Op, offset: nat, size: nat, d: seq<byte>, u: seq<byte>) {
    match op
    case OpInsert => offset <= |t| && |d| == size && u == Inserted(t, offset, d)
    case OpDelete => offset + size <= |t| && u == Deleted(t, offset, size)
    case OpWrite => offset + size <= |t| && |d| == size && u == Overwritten(t, offset, d)
  }

  lemma ChangedEdited(t: seq<byte>, op: Op, offset: nat, size: nat, d: seq<byte>, u: seq<byte>)
    requires Changed(t, op, offset, size, d, u)
    ensures Edited(t, op, offset, size, u)
  {
    assert u[..offset] == t[..offset];
    match op
    case OpInsert => assert u[offset + size..] == t[offset..];
    case OpDelete => assert u[offset..] == t[offset + size..];
    case OpWrite => assert u[offset + size..] == t[offset + size..];
  }

  lemma WriteNowhere(t: seq<byte>, o: int, buf: seq<byte>)
    ensures o < 0 || o > |t| || buf == [] ==> PagedOps.WriteAnywhere(t, o, buf) == t
  {
  }

  lemma InsertSome(t: seq<byte>, o: nat, d: seq<byte>)
    requires o <= |t|
    ensures PagedOps.InsertAnywhere(t, o, d) == Inserted(t, o, d) && (d == [] ==> Inserted(t, o, d) == t)
  {
  }

  lemma DeleteUndone(r: Record, s: Snap)
    requires RecordOk(r) && Applies(r, s.text) && r.op == OpDelete
    ensures Undone(r, s).text == PagedOps.InsertAnywhere(s.text, r.offset, r.data) && r.offset <= |s.text|
    ensures Counter(r, s) == Recorded(s, OpInsert, r.offset, r.size)
    ensures |PagedOps.InsertAnywhere(s.text, r.offset, r.data)| == |s.text| + r.size
  {
  }

  lemma WriteUndone(r: Record, s: Snap)
    requires RecordOk(r) && Applies(r, s.text) && r.op == OpWrite
    ensures r.offset + r.size <= |s.text| && |Undone(r, s).text| == |s.text|
    ensures Undone(r, s).text == PagedOps.InsertAnywhere(PagedOps.DeleteAnywhere(s.text, r.offset, r.size), r.offset, r.data)
    ensures Counter(r, s) == Recorded(Snap(Undone(r, s).text, s.modified), OpWrite, r.offset, r.size)
  {
    var t := PagedOps.DeleteAnywhere(s.text, r.offset, r.size);
    assert t[..r.offset] == s.text[..r.offset] && t[r.offset..] == s.text[r.offset + r.size..];
  }

  lemma InsertClip(t: seq<byte>, o: int, d: seq<byte>)
    ensures o < 0 || d == [] ==> PagedOps.InsertAnywhere(t, o, d) == t
    ensures o >= 0 ==> PagedOps.InsertAnywhere(t, o, d) == Inserted(t, Min(o, |t|), d)
    ensures |PagedOps.InsertAnywhere(t, o, d)| == |t| + if o < 0 then 0 else |d|
  {
  }

  lemma WindowClip(s: seq<byte>, from: int, size: int)
    ensures var len := if from + size > |s| then |s| - from else size;
      if from < 0 || from >= |s| || len <= 0 then Window(s, from, size) == []
      else Window(s, from, size) == s[from..from + len] && |Window(s, from, size)| == len
  {
  }

  lemma InsertUndone(r: Record, s: Snap)
    requires RecordOk(r) && Applies(r, s.text) && r.op == OpInsert
    ensures Undone(r, s).text == PagedOps.DeleteAnywhere(s.text, r.offset, r.size) == Deleted(s.text, r.offset, r.size)
    ensures r.offset + r.size <= |s.text| && Counter(r, s) == Recorded(s, OpDelete, r.offset, r.size)
  {
  }

  /** What playing a record changes, and its counter record. */
  lemma UndoneChanges(r: Record, s: Snap)
    requires RecordOk(r) && Applies(r, s.text)
    ensures Changed(s.text, CounterOp(r.op), r.offset, r.size, r.data, Undone(r, s).text)
    ensures var c := Counter(r, s);
      c.op == CounterOp(r.op) && c.offset == r.offset && c.size == r.size
  {
  }

  lemma EditChanges(s: Snap, e: Edit)
    requires EditFits(s.text, e)
    ensures Changed(s.text, e.op, e.offset, e.size, e.data, EditText(s.text, e))
    ensures var r := Recorded(s, e.op, e.offset, e.size);
      r.op == e.op && r.offset == e.offset && r.size == e.size
  {
  }

  lemma UndoneMoment(r: Record, s: Snap)
    requires RecordOk(r) && Applies(r, s.text)
    ensures Undone(r, s).modified == r.wasModified
  {
  }

  lemma RecordedInsert(s: Snap, t: Snap, offset: nat, size: nat)
    requires 0 < size && offset + size < TWO31 && s.modified == t.modified
    ensures Recorded(s, OpInsert, offset, size) == Recorded(t, OpInsert, offset, size)
  {
  }

  lemma RecordedShape(s: Snap, op: Op, offset: nat, size: nat)
    requires 0 < size && offset + size < TWO31 && (op != OpInsert ==> offset + size <= |s.text|)
    ensures var r := Recorded(s, op, offset, size);
      r.op == op && r.offset == offset && r.size == size
  {
  }

  /** What eb_addlog and the change have to do for one edit. */
  lemma EditReady(m: Model, e: Edit)
    requires CanEdit(m, e)
    ensures Ok(m) && |m.moments| == |m.records| + 1 && |m.side.origin| == |Now(m).text| && Loggable(m)
    ensures var s, u := Now(m), EditText(Now(m).text, e);
      var r := Recorded(s, e.op, e.offset, e.size);
      && Fits(r, |s.text|, |u|) && |u| < TWO31 && Edited(s.text, r.op, r.offset, r.size, u)
      && r.op == e.op && r.offset == e.offset && r.size == e.size
      && Edited1(m, e) == Entered(m, r, Snap(u, true))
  {
    hide Entered, Fits;
    EditLinks(Now(m), e);
    EditChanges(Now(m), e);
    ChangedEdited(Now(m).text, e.op, e.offset, e.size, e.data, EditText(Now(m).text, e));
  }

  lemma DeletePlayed(m: Model, r: Record)
    requires CanPlay(m, r) && r.op == OpInsert
    ensures var e := Edit(OpDelete, r.offset, r.size, []);
      CanEdit(m, e) ==> Edited1(m, e) == Entered(m, Counter(r, Now(m)), Snap(Undone(r, Now(m)).text, true))
  {
    hide Entered, Fits, Ok;
    if CanEdit(m, Edit(OpDelete, r.offset, r.size, [])) { EditReady(m, Edit(OpDelete, r.offset, r.size, [])); }
  }

  lemma PlayedDelete(m: Model, r: Record)
    requires CanPlay(m, r) && r.op == OpDelete
    ensures var s := Now(m);
      && |r.data| == r.size && RecordOk(r)
      && Undone(r, s).text == PagedOps.InsertAnywhere(s.text, r.offset, r.data) && Counter(r, s) == Recorded(s, OpInsert, r.offset, r.size)
  {
    DeleteUndone(r, Now(m));
  }

  lemma PlayedWrite(m: Model, r: Record)
    requires CanPlay(m, r) && r.op == OpWrite
    ensures var s := Now(m);
      && |r.data| == r.size && RecordOk(r) && r.offset + r.size <= |Undone(r, s).text|
      && Undone(r, s).text == PagedOps.InsertAnywhere(PagedOps.DeleteAnywhere(s.text, r.offset, r.size), r.offset, r.data)
      && Counter(r, s) == Recorded(Snap(Undone(r, s).text, s.modified), OpWrite, r.offset, r.size)
  {
    WriteUndone(r, Now(m));
  }

  lemma RestedOk(m: Model)
    requires Ok(m)
    ensures Ok(Rested(m))
  {
  }

  /** do_undo in two steps. */
  lemma UndoReady(m: Model)
    requires CanUndo(m) && m.cursor > 0
    ensures Ok(m) && m.cursor <= |m.records| && |m.moments| == |m.records| + 1
    ensures var r, s := m.records[m.cursor - 1], Now(m);
      RecordOk(r) && Applies(r, s.text) && Undone(r, s).modified == r.wasModified
    ensures var r, s, back := m.records[m.cursor - 1], Now(m), m.(cursor := m.cursor - 1, undoing := true, last := 0);
      && CanPlay(back, r) && Ok(back)
      && var k := Entered(back, Counter(r, s), Snap(Undone(r, s).text, true));
        UndoStep(m) == k.(moments := k.moments[..|k.records|] + [Undone(r, s)]) && |k.moments| == |k.records| + 1
        && Now(k) == Snap(Undone(r, s).text, true)
  {
    hide Entered, Counter, Undone;
    var r, s, back := m.records[m.cursor - 1], Now(m), m.(cursor := m.cursor - 1, undoing := true, last := 0);
    FitsPlays(r, |m.moments[m.cursor - 1].text|, s);
    CounterFits(r, |m.moments[m.cursor - 1].text|, s);
    UndoneMoment(r, s);
    var a := Snap(Undone(r, s).text, true);
    EnteredShape(back, Counter(r, s), a);
    EnteredFlag(back, Counter(r, s), a, Undone(r, s));
  }

  lemma NoUndo(m: Model)
    requires CanUndo(m) && m.cursor == 0
    ensures UndoStep(m) == m
  {
  }

  lemma NoRedo(m: Model)
    requires Ok(m)
    ensures !m.undoing ==> RedoStep(m) == m
  {
  }

  lemma RedoReady(m: Model)
    requires Ok(m) && m.undoing
    ensures |m.records| > 0 && |m.moments| == |m.records| + 1 && SideOk(m.side)
    ensures var n := |m.records| - 1;
      var r, s := m.records[n], Now(m);
      RecordOk(r) && Applies(r, s.text) && Within(|m.side.origin|, CounterOp(r.op), r.offset, r.size)
  {
    hide Undone;
    var n := |m.records| - 1;
    FitsPlays(m.records[n], |m.moments[n].text|, Now(m));
    FitsBack(m.records[n], |m.moments[n].text|, |Now(m).text|);
  }

  lemma RedoOk(m: Model)
    requires Ok(m)
    ensures Ok(RedoStep(m))
  {
  }

  lemma RedoIs(m: Model)
    requires Ok(m) && m.undoing && |m.records| > 0 && SideOk(m.side)
    requires var r := m.records[|m.records| - 1];
      RecordOk(r) && Applies(r, Now(m).text) && Within(|m.side.origin|, CounterOp(r.op), r.offset, r.size)
    ensures var n := |m.records| - 1;
      var r, more := m.records[n], m.cursor + 1 < n;
      RedoStep(m) == Model(m.records[..n], m.moments[..n] + [Undone(r, Now(m))], if more then m.cursor + 1 else n, more, m.count, m.last,
                           Told(m.side, CounterOp(r.op), r.offset, r.size))
  {
    hide Undone, Told, Fits, Ok;
  }

  /** A record that can be played on the text as it is. */
  ghost predicate CanPlay(m: Model, r: Record) {
    && Ok(m) && Loggable(m) && RecordOk(r) && Applies(r, Now(m).text)
    && Fits(Counter(r, Now(m)), |Now(m).text|, |Undone(r, Now(m)).text|) && |Undone(r, Now(m)).text| < TWO31
  }

  lemma PlayReady(m: Model, r: Record)
    requires CanPlay(m, r) && m.last == 0
    ensures Ok(m) && |m.moments| == |m.records| + 1 && |m.side.origin| == |Now(m).text| && Loggable(m) && SideOk(m.side)
    ensures var s, u := Now(m), Undone(r, Now(m)).text;
      var c := Counter(r, s);
      && Fits(c, |s.text|, |u|) && |u| < TWO31 && Edited(s.text, c.op, c.offset, c.size, u) && Within(|s.text|, c.op, c.offset, c.size)
      && c.op == CounterOp(r.op) && c.offset == r.offset && c.size == r.size
  {
    hide Fits;
    UndoneChanges(r, Now(m));
    ChangedEdited(Now(m).text, CounterOp(r.op), r.offset, r.size, r.data, Undone(r, Now(m)).text);
    FitsWithin(Counter(r, Now(m)), |Now(m).text|, |Undone(r, Now(m)).text|);
  }

  lemma OkNow(m: Model)
    requires Ok(m)
    ensures |m.moments| == |m.records| + 1 && |Now(m).text| < TWO31 && |m.side.origin| == |Now(m).text| && SideOk(m.side)
    ensures if m.undoing then m.cursor < |m.records| else m.cursor == |m.records|
  {
  }

  lemma ToldOrigin(m: Model, r: Record, b: nat)
    requires Ok(m) && Fits(r, |Now(m).text|, b)
    ensures Within(|m.side.origin|, r.op, r.offset, r.size)
    ensures Told(m.side, r.op, r.offset, r.size).origin == Traced(m.side.origin, r.op, r.offset, r.size)
  {
  }

  class EditBuffer {
    const text: PagedBuffer
    const log: UndoLog
    const watch: Watchers
    var readOnly: bool
    var modified: bool
    ghost var history: seq<Snap>
    /** The moment that log.current stands for. */
    ghost var cursor: nat
    /** The text at the start chosen for the side tables. */
    ghost var start: seq<byte>

    ghost predicate Parts()
      reads this, text, text.mapping, log, log.buf, log.buf.mapping, watch, watch.styles, watch.styles.mapping
    {
      && text != log.buf && text != watch.styles && log.buf != watch.styles
      && text.Valid() && log.Valid() && watch.Valid() && log.At(cursor)
    }

    /** The buffer as a value. */
    ghost function State(): Model
      reads this, log, watch
    {
      Model(log.records, history, cursor, log.current != 0, log.nbLogs, log.lastLog, watch.State())
    }

    ghost function Here(): Snap
      requires text.Stored()
      reads this, text, text.mapping
    {
      Snap(text.Text(), modified)
    }

    ghost predicate Valid()
      reads this, text, text.mapping, log, log.buf, log.buf.mapping, watch, watch.styles, watch.styles.mapping
    {
      Parts() && Survives(start, watch.origin, text.Text()) && Ok(State()) && Now(State()) == Here()
    }

    /** A buffer that keeps an undo log (BF_SAVELOG), on a loaded or empty text. */
    constructor (pages: PagedBuffer, points: seq<Point>, styled: bool, width: nat)
      requires pages.Valid() && |pages.Text()| < TWO31 && width <= 3
      requires forall k :: 0 <= k < |points| ==> 0 <= points[k].pos <= |pages.Text()|
      ensures Valid() && text == pages && !readOnly && start == pages.Text()
      ensures State() == Model([], [Snap(start, false)], 0, false, 0, 0, watch.State())
      ensures watch.points == points == watch.startPoints && watch.origin == Same(|start|) && watch.cells == watch.startCells
      ensures fresh(log) && fresh(log.buf) && fresh(watch) && fresh(watch.styles)
    {
      FlatSize(pages.G(), pages.pages);
      text := pages;
      log := new UndoLog();
      watch := new Watchers(points, styled, width, pages.totalSize);
      readOnly, modified := false, false;
      history := [Snap(pages.Text(), false)];
      cursor, start := 0, pages.Text();
    }

    /** eb_addlog: callbacks, the modified flag, the record. */
    method AddLog(op: Op, offset: nat, size: nat)
      requires Parts() && Loggable(State()) && 0 < size && offset + size < TWO31
      requires op != OpInsert ==> offset + size <= |text.Text()|
      requires Within(|watch.origin|, op, offset, size)
      modifies this`modified, this`cursor, log, log.buf, watch`points, watch`origin, watch`cells, watch.styles, text`curPage, text`curOffset
      ensures Parts() && modified && text.Text() == old(text.Text())
      ensures State() == Announced(old(State()), Recorded(old(Here()), op, offset, size))
    {
      hide Flat, PageOk, LogBytes, Mark, Survives, Added, Trimmed, Recorded, Told, Merges;
      RecordedShape(Here(), op, offset, size);
      watch.Notify(op, offset, size);
      var wasModified := modified;
      modified := true;
      ghost var c := log.Add(text, op, offset, size, wasModified, cursor);
      cursor := if log.current == 0 then |log.records| else c;
    }

    /** The moment after eb_addlog and the change of the text. */
    ghost method Commit(m: Model, r: Record)
      requires Parts() && Ok(m) && Loggable(m) && Fits(r, |Now(m).text|, |text.Text()|) && |text.Text()| < TWO31
      requires State() == Announced(m, r).(moments := history)
      requires Survives(start, m.side.origin, Now(m).text) && Edited(Now(m).text, r.op, r.offset, r.size, text.Text())
      modifies this`history
      ensures Valid() && State() == Entered(m, r, Here())
    {
      hide Flat, PageOk, LogBytes, Mark, Survives, Added, Trimmed, Told, Merges, Moments, Edited, Fits, Ok;
      OkNow(m);
      history := Entered(m, r, Here()).moments;
      EnteredOk(m, r, Here());
      EnteredShape(m, r, Here());
      ToldOrigin(m, r, |text.Text()|);
      EditedSurvives(start, m.side.origin, Now(m).text, r.op, r.offset, r.size, text.Text());
    }

    /** eb_insert. */
    method Insert(offset: int, buf: seq<byte>) returns (n: nat)
      requires Valid() && Loggable(State()) && |PagedOps.InsertAnywhere(text.Text(), offset, buf)| < TWO31
      modifies this`modified, this`cursor, this`history, log, log.buf, watch`points, watch`origin, watch`cells, watch.styles, text
      ensures Valid() && n == if readOnly || offset < 0 then 0 else |buf|
      ensures text.Text() == if readOnly then old(text.Text()) else PagedOps.InsertAnywhere(old(text.Text()), offset, buf)
      ensures n == 0 ==> State() == old(State())
      ensures n > 0 ==> var e := Edit(OpInsert, Min(offset, |old(text.Text())|), n, buf);
        CanEdit(old(State()), e) && State() == Edited1(old(State()), e)
    {
      hide Flat, PageOk, LogBytes, Mark, Survives, Ok, Inserted, PagedOps.InsertAnywhere, Recorded, Fits, Edited, Edited1, Entered, Announced;
      FlatSize(text.G(), text.pages);
      OkNow(State());
      InsertClip(text.Text(), offset, buf);
      if readOnly { return 0; }
      var o := if offset > text.totalSize then text.totalSize else offset;
      if o < 0 || |buf| <= 0 { return 0; }
      ghost var m, e := State(), Edit(OpInsert, o, |buf|, buf);
      EditReady(m, e);
      AddLog(OpInsert, o, |buf|);
      text.InsertLowlevel(o, buf);
      Commit(m, Recorded(Now(m), OpInsert, o, |buf|));
      n := |buf|;
    }

    /** eb_delete. */
    method Delete(offset: int, size: int) returns (n: nat)
      requires Valid() && Loggable(State())
      modifies this`modified, this`cursor, this`history, log, log.buf, watch`points, watch`origin, watch`cells, watch.styles, text
      ensures Valid() && n == |old(text.Text())| - |text.Text()|
      ensures text.Text() == if readOnly then old(text.Text()) else PagedOps.DeleteAnywhere(old(text.Text()), offset, size)
      ensures n == 0 ==> State() == old(State())
      ensures n > 0 ==> offset >= 0 && var e := Edit(OpDelete, offset, n, []);
        CanEdit(old(State()), e) && State() == Edited1(old(State()), e)
    {
      hide Flat, PageOk, LogBytes, Mark, Survives, Ok, Recorded, Fits, Edited, Edited1, Entered, Announced;
      FlatSize(text.G(), text.pages);
      OkNow(State());
      if readOnly { return 0; }
      if offset < 0 || offset >= text.totalSize || size <= 0 { return 0; }
      n := Min(size, text.totalSize - offset);
      ghost var m, e := State(), Edit(OpDelete, offset, n, []);
      EditReady(m, e);
      AddLog(OpDelete, offset, n);
      text.DeleteRaw(offset, n);
      Commit(m, Recorded(Now(m), OpDelete, offset, n));
    }

    /** The first half of eb_write, over bytes that exist. */
    method Overwrite(offset: nat, buf: seq<byte>)
      requires Valid() && Loggable(State()) && !readOnly && offset + |buf| <= |text.Text()| && |buf| > 0
      modifies this`modified, this`cursor, this`history, log, log.buf, watch`points, watch`origin, watch`cells, watch.styles, text
      ensures Valid() && text.Text() == Overwritten(old(text.Text()), offset, buf)
      ensures var e := Edit(OpWrite, offset, |buf|, buf);
        CanEdit(old(State()), e) && State() == Edited1(old(State()), e)
    {
      hide Flat, PageOk, LogBytes, Mark, Survives, Ok, Recorded, Fits, Edited, Edited1, Entered, Announced;
      FlatSize(text.G(), text.pages);
      OkNow(State());
      ghost var m, e := State(), Edit(OpWrite, offset, |buf|, buf);
      EditReady(m, e);
      AddLog(OpWrite, offset, |buf|);
      text.WriteRaw(offset, buf);
      Commit(m, Recorded(Now(m), OpWrite, offset, |buf|));
    }

    /** eb_insert_buffer. */
    method InsertBuffer(offset: int, src: PagedBuffer, from: int, size: int) returns (n: nat)
      requires Valid() && Loggable(State()) && src.Valid() && src != text && src != log.buf && src != watch.styles
      requires |PagedOps.InsertAnywhere(text.Text(), offset, Window(src.Text(), from, size))| < TWO31
      modifies this`modified, this`cursor, this`history, log, log.buf, watch`points, watch`origin, watch`cells, watch.styles, text, src`curPage, src`curOffset
      ensures Valid() && src.Valid()
      ensures n == if readOnly || offset < 0 then 0 else |Window(src.Text(), from, size)|
      ensures text.Text() == if readOnly then old(text.Text()) else PagedOps.InsertAnywhere(old(text.Text()), offset, Window(src.Text(), from, size))
      ensures n == 0 ==> State() == old(State())
      ensures n > 0 ==> var e := Edit(OpInsert, Min(offset, |old(text.Text())|), n, Window(src.Text(), from, size));
        CanEdit(old(State()), e) && State() == Edited1(old(State()), e)
    {
      hide Flat, PageOk, LogBytes, Mark, Survives, Ok, PagedOps.InsertAnywhere, Window, Inserted, Edited1, CanEdit;
      FlatSize(text.G(), text.pages);
      FlatSize(src.G(), src.pages);
      OkNow(State());
      ghost var d := Window(src.Text(), from, size);
      InsertClip(text.Text(), offset, d);
      WindowClip(src.Text(), from, size);
      if readOnly { return 0; }
      if offset < 0 || from < 0 || from >= src.totalSize { return 0; }
      var len := if from + size > src.totalSize then src.totalSize - from else size;
      var o := Min(offset, text.totalSize);
      if len <= 0 { return 0; }
      InsertFrom(o, src, from, len);
      n := len;
    }

    /** eb_insert_buffer with the clipped arguments. */
    method InsertFrom(o: nat, src: PagedBuffer, from: nat, n: nat)
      requires Valid() && Loggable(State()) && src.Valid() && src != text && src != log.buf && src != watch.styles
      requires o <= |text.Text()| && n > 0 && from + n <= |src.Text()| && |text.Text()| + n < TWO31
      modifies this`modified, this`cursor, this`history, log, log.buf, watch`points, watch`origin, watch`cells, watch.styles, text, src`curPage, src`curOffset
      ensures Valid() && src.Valid() && text.Text() == Inserted(old(text.Text()), o, src.Text()[from..from + n])
      ensures var e := Edit(OpInsert, o, n, src.Text()[from..from + n]);
        CanEdit(old(State()), e) && State() == Edited1(old(State()), e)
    {
      hide Flat, PageOk, LogBytes, Mark, Survives, Ok, Inserted, Recorded, Fits, Edited, Edited1, Entered, Announced;
      FlatSize(text.G(), text.pages);
      FlatSize(src.G(), src.pages);
      OkNow(State());
      ghost var m, e := State(), Edit(OpInsert, o, n, src.Text()[from..from + n]);
      EditReady(m, e);
      AddLog(OpInsert, o, n);
      text.InsertFrom(o, src, from, n);
      Commit(m, Recorded(Now(m), OpInsert, o, n));
    }

    method WriteHead(offset: nat, buf: seq<byte>)
      requires Valid() && Loggable(State()) && !readOnly && offset + |buf| <= |text.Text()|
      modifies this`modified, this`cursor, this`history, log, log.buf, watch`points, watch`origin, watch`cells, watch.styles, text
      ensures Valid() && text.Text() == Overwritten(old(text.Text()), offset, buf)
      ensures CanEditAll(old(State()), WriteEdit(offset, buf)) && State() == EditedAll(old(State()), WriteEdit(offset, buf))
    {
      hide Flat, PageOk, LogBytes, Mark, Survives, Ok, Edited1, CanEdit, CanEditAll, EditedAll;
      NoEdits(State());
      if buf == [] {
        OverwriteNothing(text.Text(), offset, buf);
        assert buf[..0] == buf;
      } else {
        ghost var m := State();
        Overwrite(offset, buf);
        OneEdit(m, Edit(OpWrite, offset, |buf|, buf));
      }
    }

    method WriteTail(offset: nat, buf: seq<byte>)
      requires Valid() && Loggable(State()) && !readOnly && offset <= |text.Text()| && |text.Text()| + |buf| < TWO31
      modifies this`modified, this`cursor, this`history, log, log.buf, watch`points, watch`origin, watch`cells, watch.styles, text
      ensures Valid() && text.Text() == Inserted(old(text.Text()), offset, buf)
      ensures CanEditAll(old(State()), InsertEdit(offset, buf)) && State() == EditedAll(old(State()), InsertEdit(offset, buf))
    {
      hide Flat, PageOk, LogBytes, Mark, Survives, Ok, Edited1, CanEdit, CanEditAll, EditedAll, Inserted, PagedOps.InsertAnywhere;
      NoEdits(State());
      InsertSome(text.Text(), offset, buf);
      if buf != [] {
        ghost var m := State();
        var _ := Insert(offset, buf);
        OneEdit(m, Edit(OpInsert, offset, |buf|, buf));
      }
    }

    /** eb_write. */
    method Write(offset: int, buf: seq<byte>) returns (n: nat)
      requires Valid() && Loggable(State()) && |PagedOps.WriteAnywhere(text.Text(), offset, buf)| < TWO31
      modifies this`modified, this`cursor, this`history, log, log.buf, watch`points, watch`origin, watch`cells, watch.styles, text
      ensures Valid() && n == if readOnly || offset < 0 || offset > |old(text.Text())| then 0 else |buf|
      ensures text.Text() == if readOnly then old(text.Text()) else PagedOps.WriteAnywhere(old(text.Text()), offset, buf)
      ensures readOnly ==> State() == old(State())
      ensures !readOnly ==> var es := WriteEdits(old(text.Text()), offset, buf);
        CanEditAll(old(State()), es) && State() == EditedAll(old(State()), es)
    {
      hide Flat, PageOk, LogBytes, Mark, Survives, Ok, Overwritten, Inserted, PagedOps.InsertAnywhere, PagedOps.WriteAnywhere, CanEditAll, EditedAll, WriteEdit, InsertEdit;
      FlatSize(text.G(), text.pages);
      OkNow(State());
      NoEdits(State());
      WriteNowhere(text.Text(), offset, buf);
      if readOnly { return 0; }
      if offset < 0 || |buf| <= 0 || offset > text.totalSize { return 0; }
      ghost var m := State();
      var w := Min(|buf|, text.totalSize - offset);
      PagedOps.WriteIsOverwriteThenInsert(text.Text(), offset, buf);
      WriteHead(offset, buf[..w]);
      WriteTail(offset + w, buf[w..]);
      EditsAppend(m, WriteEdit(offset, buf[..w]), InsertEdit(offset + w, buf[w..]));
      n := |buf|;
    }

    /** do_undo on an insert record. */
    method PlayInsert(ghost r: Record, offset: nat, size: nat)
      requires Valid() && CanPlay(State(), r) && log.lastLog == 0 && !readOnly && r.op == OpInsert && offset == r.offset && size == r.size
      modifies this`modified, this`cursor, this`history, log, log.buf, watch`points, watch`origin, watch`cells, watch.styles, text
      ensures Valid() && modified && CanPlay(old(State()), r) && State() == Entered(old(State()), Counter(r, old(Here())), Snap(Undone(r, old(Here())).text, true))
    {
      hide Flat, PageOk, LogBytes, Mark, Survives, Ok, Undone, Counter, PagedOps.DeleteAnywhere, Edited1, Entered, Fits;
      OkNow(State());
      ghost var m := State();
      InsertUndone(r, Now(m));
      var _ := Delete(offset, size);
      DeletePlayed(m, r);
    }

    /** do_undo on a delete record: the bytes come back from the log, and since
        eb_addlog is off during that (save_log & 2) they are logged after. */
    method PlayDelete(ghost r: Record, ghost i: nat, offset: nat, size: nat, index: int)
      requires Valid() && CanPlay(State(), r) && log.lastLog == 0 && !readOnly && r.op == OpDelete && offset == r.offset && size == r.size
      requires i < |log.records| && r == log.records[i] && index == Mark(log.records, i) + HEADER
      modifies this`modified, this`cursor, this`history, log, log.buf, watch`points, watch`origin, watch`cells, watch.styles, text
      ensures Valid() && modified && CanPlay(old(State()), r) && State() == Entered(old(State()), Counter(r, old(Here())), Snap(Undone(r, old(Here())).text, true))
    {
      hide Flat, PageOk, LogBytes, Mark, Survives, Ok, Undone, Counter, PagedOps.InsertAnywhere, Window, Entered, Fits, Announced, Edited, Recorded, CanPlay;
      ghost var m := State();
      PlayReady(m, r);
      Walks(log.records, i);
      PlayedDelete(m, r);
      var _ := PagedOps.InsertBuffer(text, offset, log.buf, index, size);
      RecordedInsert(Now(m), Here(), offset, size);
      AddLog(OpInsert, offset, size);
      Commit(m, Counter(r, Now(m)));
    }

    /** do_undo on a write record: the old bytes replace the new ones with
        eb_addlog off, then a write is logged. */
    method PlayWrite(ghost r: Record, ghost i: nat, offset: nat, size: nat, index: int)
      requires Valid() && CanPlay(State(), r) && log.lastLog == 0 && !readOnly && r.op == OpWrite && offset == r.offset && size == r.size
      requires i < |log.records| && r == log.records[i] && index == Mark(log.records, i) + HEADER
      modifies this`modified, this`cursor, this`history, log, log.buf, watch`points, watch`origin, watch`cells, watch.styles, text
      ensures Valid() && modified && CanPlay(old(State()), r) && State() == Entered(old(State()), Counter(r, old(Here())), Snap(Undone(r, old(Here())).text, true))
    {
      hide Flat, PageOk, LogBytes, Mark, Survives, Ok, Undone, Counter, PagedOps.InsertAnywhere, PagedOps.DeleteAnywhere, Window, Entered, Fits, Announced, Edited, Recorded, CanPlay;
      ghost var m := State();
      PlayReady(m, r);
      Walks(log.records, i);
      PlayedWrite(m, r);
      var _ := PagedOps.Delete(text, offset, size);
      var _ := PagedOps.InsertBuffer(text, offset, log.buf, index, size);
      AddLog(OpWrite, offset, size);
      Commit(m, Counter(r, Now(m)));
    }

    /** The switch of do_undo. */
    method Play(ghost r: Record, ghost i: nat, hd: Header, index: int)
      requires Valid() && CanPlay(State(), r) && log.lastLog == 0 && !readOnly && hd == HeaderOf(r)
      requires i < |log.records| && r == log.records[i] && index == Mark(log.records, i) + HEADER
      modifies this`modified, this`cursor, this`history, log, log.buf, watch`points, watch`origin, watch`cells, watch.styles, text
      ensures Valid() && modified && CanPlay(old(State()), r) && State() == Entered(old(State()), Counter(r, old(Here())), Snap(Undone(r, old(Here())).text, true))
    {
      hide Flat, PageOk, LogBytes, Mark, Survives, Ok, Undone, Counter, Entered, CanPlay;
      if hd.op == OpCode(OpWrite) {
        PlayWrite(r, i, hd.offset, hd.size, index);
      } else if hd.op == OpCode(OpDelete) {
        PlayDelete(r, i, hd.offset, hd.size, index);
      } else {
        PlayInsert(r, hd.offset, hd.size);
      }
    }

    /** b->modified = lb.was_modified. */
    method SetModified(flag: bool)
      requires Valid()
      modifies this`modified, this`history
      ensures Valid() && text.Text() == old(text.Text()) && modified == flag
      ensures State() == old(State()).(moments := old(history)[..|log.records|] + [Here()])
    {
      hide Flat, PageOk, LogBytes, Mark, Survives;
      modified := flag;
      history := history[..|log.records|] + [Here()];
    }

    /** log_current is kept only between undo and redo commands. */
    method Reset(consecutive: bool)
      requires Valid()
      modifies this`cursor, log`current
      ensures Parts() && State() == if consecutive then old(State()) else Rested(old(State()))
    {
      hide Flat, PageOk, LogBytes, Mark, Survives, Ok;
      if !consecutive {
        log.current := 0;
        cursor := |log.records|;
      }
    }

    /** The first half of do_undo: find the record to play. */
    method GoBackward() returns (found: bool, hd: Header, index: int)
      requires Parts() && (log.current == 0 ==> cursor == |log.records|)
      modifies this`cursor, log`current, log`lastLog, log.buf`curPage, log.buf`curOffset
      ensures Parts() && (found <==> old(cursor) > 0)
      ensures State() == if found then old(State()).(cursor := old(cursor) - 1, undoing := true, last := 0) else old(State())
      ensures found ==> cursor < |log.records| && hd == HeaderOf(log.records[cursor]) && index == Mark(log.records, cursor) + HEADER
    {
      hide Flat, PageOk, LogBytes, Mark, Survives, Ok;
      MarkEnds(log.records);
      ghost var c := cursor;
      index := if log.current == 0 then log.newIndex else log.current - 1;
      hd := Header(0, 0, 0, 0);
      if c > 0 { MarkOrder(log.records, 0, c); }
      if index == 0 { return false, hd, index; }
      index := log.Back(index, c - 1);
      log.current := index + 1;
      cursor := c - 1;
      hd := log.ReadHeader(index, c - 1);
      index := index + HEADER;
      log.lastLog := 0;
      found := true;
    }

    /** do_undo. */
    method Undo(consecutive: bool) returns (done: bool)
      requires Valid() && !readOnly && CanUndo(if consecutive then State() else Rested(State()))
      modifies this`modified, this`cursor, this`history, log, log.buf, watch`points, watch`origin, watch`cells, watch.styles, text
      ensures Valid() && State() == Undo1(old(State()), consecutive)
      ensures done <==> (if consecutive then old(State()) else Rested(old(State()))).cursor > 0
    {
      hide Flat, PageOk, LogBytes, Mark, Survives, Ok, Undone, Counter, Entered, CanPlay, UndoStep, Fits;
      ghost var m := if consecutive then State() else Rested(State());
      OkNow(State());
      RestedOk(State());
      Reset(consecutive);
      var hd, index;
      done, hd, index := GoBackward();
      if done {
        UndoReady(m);
        Play(m.records[m.cursor - 1], m.cursor - 1, hd, index);
        SetModified(hd.wasModified != 0);
      } else {
        NoUndo(m);
      }
    }

    /** eb_addlog with logging off: callbacks and the modified flag. */
    method Announce(op: Op, offset: nat, size: nat)
      requires watch.Valid() && Within(|watch.origin|, op, offset, size)
      modifies this`modified, watch`points, watch`origin, watch`cells, watch.styles
      ensures watch.Valid() && modified && SideOk(old(watch.State())) && watch.State() == Told(old(watch.State()), op, offset, size)
    {
      watch.Notify(op, offset, size);
      modified := true;
    }

    /** do_redo on an insert record. */
    method ReplayInsert(ghost r: Record, offset: nat, size: nat)
      requires Parts() && Survives(start, watch.origin, text.Text()) && RecordOk(r) && Applies(r, text.Text())
      requires SideOk(watch.State()) && Within(|watch.origin|, CounterOp(r.op), r.offset, r.size)
      requires r.op == OpInsert && offset == r.offset && size == r.size
      modifies this`modified, watch`points, watch`origin, watch`cells, watch.styles, text, log.buf`curPage, log.buf`curOffset
      ensures Parts() && modified && text.Text() == Undone(r, old(Here())).text && Survives(start, watch.origin, text.Text())
      ensures watch.State() == Told(old(watch.State()), CounterOp(r.op), r.offset, r.size)
    {
      hide Flat, PageOk, Survives, Traced, Edited, Changed, LogBytes, Restyled, Moved;
      FlatSize(text.G(), text.pages);
      UndoneChanges(r, Here());
      InsertUndone(r, Here());
      ChangedEdited(text.Text(), OpDelete, offset, size, r.data, Undone(r, Here()).text);
      Announce(OpDelete, offset, size);
      text.DeleteRaw(offset, size);
      EditedSurvives(start, old(watch.origin), old(text.Text()), OpDelete, offset, size, text.Text());
    }

    /** do_redo on a delete or a write record. */
    method ReplayLost(ghost r: Record, ghost i: nat, hd: Header, index: int)
      requires Parts() && Survives(start, watch.origin, text.Text()) && RecordOk(r) && Applies(r, text.Text())
      requires SideOk(watch.State()) && Within(|watch.origin|, CounterOp(r.op), r.offset, r.size)
      requires i < |log.records| && r == log.records[i] && r.op != OpInsert && hd == HeaderOf(r) && index == Mark(log.records, i) + HEADER
      modifies this`modified, watch`points, watch`origin, watch`cells, watch.styles, text, log.buf`curPage, log.buf`curOffset
      ensures Parts() && modified && text.Text() == Undone(r, old(Here())).text && Survives(start, watch.origin, text.Text())
      ensures watch.State() == Told(old(watch.State()), CounterOp(r.op), r.offset, r.size)
    {
      hide Flat, PageOk, LogBytes, Mark, Survives, Traced, Edited, Changed, Undone, Counter, PagedOps.InsertAnywhere, PagedOps.DeleteAnywhere, Window, Restyled, Moved;
      FlatSize(text.G(), text.pages);
      Walks(log.records, i);
      UndoneChanges(r, Here());
      ChangedEdited(text.Text(), CounterOp(r.op), r.offset, r.size, r.data, Undone(r, Here()).text);
      var offset, size := hd.offset, hd.size;
      if hd.op == OpCode(OpWrite) {
        WriteUndone(r, Here());
        var _ := PagedOps.Delete(text, offset, size);
        var _ := PagedOps.InsertBuffer(text, offset, log.buf, index, size);
        Announce(OpWrite, offset, size);
      } else {
        DeleteUndone(r, Here());
        var _ := PagedOps.InsertBuffer(text, offset, log.buf, index, size);
        Announce(OpInsert, offset, size);
      }
      EditedSurvives(start, old(watch.origin), old(text.Text()), CounterOp(r.op), offset, size, text.Text());
    }

    /** The first half of do_redo: one record forward from the current one, one
        record backward from the end of the log. */
    method GoForward() returns (hd: Header, index: int)
      requires Parts() && log.current != 0 && cursor < |log.records|
      modifies this`cursor, log`current, log.buf`curPage, log.buf`curOffset
      ensures Parts() && cursor == old(cursor) + 1 && log.current != 0
      ensures hd == HeaderOf(log.records[|log.records| - 1]) && index == Mark(log.records, |log.records| - 1)
    {
      hide Flat, PageOk, LogBytes, Mark, Survives, Ok;
      ghost var n := |log.records| - 1;
      MarkEnds(log.records);
      var next := log.Forward(log.current - 1, cursor);
      log.current := next + 1;
      cursor := cursor + 1;
      index := log.Back(log.newIndex, n);
      hd := log.ReadHeader(index, n);
    }

    /** The switch of do_redo, and the modified flag. */
    method Replay(hd: Header, index: int, ghost r: Record)
      requires Parts() && Survives(start, watch.origin, text.Text()) && RecordOk(r) && Applies(r, text.Text())
      requires SideOk(watch.State()) && Within(|watch.origin|, CounterOp(r.op), r.offset, r.size)
      requires log.records != [] && r == log.records[|log.records| - 1] && hd == HeaderOf(r) && index == Mark(log.records, |log.records| - 1)
      modifies this`modified, watch`points, watch`origin, watch`cells, watch.styles, text, log.buf`curPage, log.buf`curOffset
      ensures Parts() && Here() == Undone(r, old(Here())) && Survives(start, watch.origin, text.Text())
      ensures watch.State() == Told(old(watch.State()), CounterOp(r.op), r.offset, r.size)
    {
      hide Flat, PageOk, LogBytes, Mark, Survives, Undone, Told;
      UndoneMoment(r, Here());
      if hd.op == OpCode(OpInsert) {
        ReplayInsert(r, hd.offset, hd.size);
      } else {
        ReplayLost(r, |log.records| - 1, hd, index + HEADER);
      }
      modified := hd.wasModified != 0;
    }

    /** do_redo on a log that is being walked. */
    method RedoLast()
      requires Valid() && State().undoing && !readOnly
      modifies this`modified, this`cursor, this`history, log, log.buf, watch`points, watch`origin, watch`cells, watch.styles, text
      ensures Valid() && State() == RedoStep(old(State()))
    {
      hide Flat, PageOk, LogBytes, Mark, Survives, Ok, Undone, Told, RedoStep;
      ghost var m, n := State(), |log.records| - 1;
      OkNow(m);
      RedoReady(m);
      RedoIs(m);
      RedoOk(m);
      ghost var r := log.records[n];
      var hd, index := GoForward();
      Replay(hd, index, r);
      DropLast(index, m.moments[..n] + [Here()]);
    }

    /** The end of do_redo: the record just played leaves the log. */
    method DropLast(index: int, ghost h: seq<Snap>)
      requires Parts() && log.records != [] && cursor > 0 && log.current != 0 && index == Mark(log.records, |log.records| - 1)
      modifies this`cursor, this`history, log, log.buf
      ensures Parts() && text.Text() == old(text.Text()) && watch.State() == old(watch.State())
      ensures var n, m := |old(log.records)| - 1, old(State());
        State() == m.(records := m.records[..n], moments := h, cursor := if m.cursor < n then m.cursor else n, undoing := m.cursor < n)
    {
      hide Flat, PageOk, LogBytes, Mark;
      ghost var c := cursor;
      log.RemoveLast(index, c);
      cursor := if log.current == 0 then |log.records| else c;
      history := h;
    }

    /** do_redo. */
    method Redo(consecutive: bool) returns (done: bool)
      requires Valid() && !readOnly
      modifies this`modified, this`cursor, this`history, log, log.buf, watch`points, watch`origin, watch`cells, watch.styles, text
      ensures Valid() && State() == Redo1(old(State()), consecutive)
      ensures done <==> consecutive && old(State()).undoing
    {
      hide Flat, PageOk, LogBytes, Mark, Survives, Ok, RedoStep;
      RestedOk(State());
      OkNow(State());
      MarkEnds(log.records);
      if log.records != [] { MarkOrder(log.records, 0, |log.records|); }
      NoRedo(if consecutive then State() else Rested(State()));
      Reset(consecutive);
      if log.current == 0 || log.newIndex == 0 { return false; }
      RedoLast();
      done := true;
    }
  }
}
