/** Sessions of an edit buffer as a whole (buffer.c): what nb_logs counts, and
    which sessions of edits, undos and redos go through. */
module UndoRuns {
  import opened Bytes
  import opened Pages
  import opened PagedText
  import opened PagedOps
  import opened UndoRecords
  import opened UndoLogs
  import opened SideTables
  import opened UndoModels
  import opened UndoTheorems
  import opened UndoRedos
  import opened EditBuffers
  import opened UndoSessions

  // What nb_logs counts

  /** A redo that finds something to redo. */
  predicate Redoes(m: Model, consecutive: bool, c: Command) {
    c.Redo? && consecutive && m.undoing
  }

  /** The redos of a session that take effect. */
  ghost function RedosDone(m: Model, s: seq<byte>, consecutive: bool, cs: seq<Command>): nat
    requires Runs(m, s, consecutive, cs)
    decreases |cs|
  {
    if cs == [] then 0
    else
      (if Redoes(m, consecutive, cs[0]) then 1 else 0) +
      RedosDone(After1(m, s, consecutive, cs[0]), s, !cs[0].Do?, cs[1..])
  }

  /** By how much nb_logs exceeds the number of records. */
  function Excess(m: Model): int {
    m.count - |m.records|
  }

  lemma StepExcess(m: Model, s: seq<byte>, consecutive: bool, c: Command)
    requires Ready(m, s, consecutive, c)
    ensures Excess(After1(m, s, consecutive, c)) == Excess(m) + if Redoes(m, consecutive, c) then 1 else 0
  {
    hide Ok, EditedAll, CallEdits, UndoStep, RedoStep, Effect, CanUndo;
    match c
    case Do(call) => CallFits(m, s, call);
    case Undo =>
    case Redo =>
      RestedOk(m);
      var from := if consecutive then m else Rested(m);
      NoRedo(from);
      if from.undoing { RedoShape(from); }
  }

  /** Over every session the excess grows by one with each redo that takes
      effect, and by nothing else. */
  lemma {:induction false} SessionCount(m: Model, s: seq<byte>, consecutive: bool, cs: seq<Command>)
    requires Runs(m, s, consecutive, cs)
    ensures var k := After(m, s, consecutive, cs);
      k.count - |k.records| == m.count - |m.records| + RedosDone(m, s, consecutive, cs)
    decreases |cs|
  {
    hide Ready, After1, Ok;
    if cs != [] {
      StepExcess(m, s, consecutive, cs[0]);
      SessionCount(After1(m, s, consecutive, cs[0]), s, !cs[0].Do?, cs[1..]);
    }
  }

  /** nb_logs is the number of records exactly as long as no redo takes effect. */
  lemma CountsRecords(m: Model, s: seq<byte>, consecutive: bool, cs: seq<Command>)
    requires Runs(m, s, consecutive, cs) && m.count == |m.records|
    ensures var k := After(m, s, consecutive, cs);
      k.count == |k.records| <==> RedosDone(m, s, consecutive, cs) == 0
  {
    hide Runs, After, RedosDone;
    SessionCount(m, s, consecutive, cs);
  }

  /** A session leaves a log that counts as full and holds no record exactly when
      the redos that took effect make up its whole count. */
  lemma EmptyFull(m: Model, s: seq<byte>, consecutive: bool, cs: seq<Command>)
    requires Runs(m, s, consecutive, cs)
    ensures var k, redone := After(m, s, consecutive, cs), RedosDone(m, s, consecutive, cs);
      && (!Loggable(k) <==> Full(k) && k.count == m.count - |m.records| + redone)
      && (!Loggable(k) ==> k.records == [])
  {
    hide Runs, After, RedosDone;
    SessionCount(m, s, consecutive, cs);
  }

  /** The redo commands of a session. */
  function RedoCount(cs: seq<Command>): nat {
    if cs == [] then 0 else (if cs[0].Redo? then 1 else 0) + RedoCount(cs[1..])
  }

  lemma {:induction false} DoneAtMost(m: Model, s: seq<byte>, consecutive: bool, cs: seq<Command>)
    requires Runs(m, s, consecutive, cs)
    ensures RedosDone(m, s, consecutive, cs) <= RedoCount(cs)
    decreases |cs|
  {
    hide Ready, After1, Ok;
    if cs != [] { DoneAtMost(After1(m, s, consecutive, cs[0]), s, !cs[0].Do?, cs[1..]); }
  }

  /** With few redos the log can always be written. */
  lemma FewRedos(m: Model, s: seq<byte>, consecutive: bool, cs: seq<Command>)
    requires Runs(m, s, consecutive, cs) && m.count - |m.records| + RedoCount(cs) < NB_LOGS_MAX - 1
    ensures Loggable(After(m, s, consecutive, cs))
  {
    hide Runs, After, RedosDone, RedoCount;
    DoneAtMost(m, s, consecutive, cs);
    EmptyFull(m, s, consecutive, cs);
  }

  // Sessions that go through

  /** The state from which an undo or a redo starts. */
  function Resumed(m: Model, consecutive: bool): Model {
    if consecutive then m else Rested(m)
  }

  /** An undo in a full log that plays its oldest record trims that record. */
  predicate Breaks(m: Model, consecutive: bool, c: Command) {
    c.Undo? && Full(m) && Resumed(m, consecutive).cursor == 1
  }

  /** Whether such an undo is among the undos and redos in a row that end here. */
  predicate BrokenAfter(m: Model, consecutive: bool, broken: bool, c: Command) {
    !c.Do? && ((consecutive && broken) || Breaks(m, consecutive, c))
  }

  /** What a command needs of the session before it: small texts, a log that can
      be written, and for a redo that takes effect no such undo in its row. */
  ghost predicate SafeStep(m: Model, s: seq<byte>, consecutive: bool, broken: bool, c: Command) {
    && SmallCall(m, s, c) && (!c.Redo? ==> Loggable(m)) && (Redoes(m, consecutive, c) ==> !broken)
  }

  ghost predicate SmallCall(m: Model, s: seq<byte>, c: Command) {
    c.Do? && m.moments != [] ==> |Effect(Now(m).text, s, c.call)| < TWO31
  }

  ghost predicate SafeSession(m: Model, s: seq<byte>, consecutive: bool, broken: bool, cs: seq<Command>)
    decreases |cs|
  {
    cs == [] || (SafeStep(m, s, consecutive, broken, cs[0])
      && (Ready(m, s, consecutive, cs[0]) ==>
        SafeSession(After1(m, s, consecutive, cs[0]), s, !cs[0].Do?, BrokenAfter(m, consecutive, broken, cs[0]), cs[1..])))
  }

  /** The row of undos and redos that ends here, if any, can go on. */
  ghost predicate RowOk(m: Model, consecutive: bool, broken: bool) {
    consecutive ==> if broken then InChain(m) else MirrorLengths(m.moments, m.cursor)
  }

  lemma RestedMirror(m: Model)
    requires Ok(m)
    ensures Ok(Rested(m)) && MirrorLengths(m.moments, |m.records|)
  {
  }

  lemma MirrorChain(m: Model)
    requires Ok(m)
    ensures MirrorLengths(m.moments, m.cursor) ==> InChain(m)
    ensures m.count < NB_LOGS_MAX - 1 ==> Loggable(m)
  {
  }

  lemma RowUndo(m: Model, consecutive: bool, broken: bool)
    requires Ok(m) && Loggable(m) && RowOk(m, consecutive, broken)
    ensures CanUndo(Resumed(m, consecutive))
    ensures RowOk(Undo1(m, consecutive), true, BrokenAfter(m, consecutive, broken, Undo))
  {
    hide Ok, UndoStep, Fits, MirrorLengths, Told, Counter, InChain, CanUndo, Loggable;
    RestedMirror(m);
    RestedSame(m);
    var from := Resumed(m, consecutive);
    MirrorChain(from);
    ChainUndo(from);
    if from.cursor == 0 {
      NoUndo(from);
    } else if MirrorLengths(from.moments, from.cursor) {
      UndoMirror(from);
    }
  }

  lemma RestedSame(m: Model)
    ensures (Loggable(m) <==> Loggable(Rested(m))) && (Full(m) <==> Full(Rested(m)))
  {
  }

  lemma RowRedo(m: Model, consecutive: bool, broken: bool)
    requires Ok(m) && RowOk(m, consecutive, broken) && (Redoes(m, consecutive, Redo) ==> !broken)
    ensures RowOk(Redo1(m, consecutive), true, BrokenAfter(m, consecutive, broken, Redo))
  {
    hide Ok, RedoStep, Fits, MirrorLengths, Told, Undone, InChain;
    RestedMirror(m);
    var from := Resumed(m, consecutive);
    NoRedo(from);
    if from.undoing { ChainRedo(from); }
  }

  lemma SafeReady(m: Model, s: seq<byte>, consecutive: bool, broken: bool, c: Command)
    requires Ok(m) && RowOk(m, consecutive, broken) && SafeStep(m, s, consecutive, broken, c)
    ensures Ready(m, s, consecutive, c)
    ensures RowOk(After1(m, s, consecutive, c), !c.Do?, BrokenAfter(m, consecutive, broken, c))
  {
    hide Ok, EditedAll, CallEdits, UndoStep, RedoStep, Effect, RowOk, CanEditAll, CanUndo, Loggable;
    OkNow(m);
    match c
    case Do(call) =>
      CallFits(m, s, call);
      NoRow(After1(m, s, consecutive, c));
    case Undo => RowUndo(m, consecutive, broken);
    case Redo => RowRedo(m, consecutive, broken);
  }

  lemma NoRow(m: Model)
    ensures forall broken :: RowOk(m, false, broken)
  {
  }

  /** Edits, undos and redos in any order, trimming included, go through as long
      as the texts stay small, the log can be written, and no redo takes effect
      in a row with an undo that trimmed the record it played. */
  lemma {:induction false} SessionRuns(m: Model, s: seq<byte>, consecutive: bool, broken: bool, cs: seq<Command>)
    requires Ok(m) && RowOk(m, consecutive, broken) && SafeSession(m, s, consecutive, broken, cs)
    ensures Runs(m, s, consecutive, cs)
    decreases |cs|
  {
    hide Ok, Ready, After1, RowOk, SafeStep;
    if cs != [] {
      SafeReady(m, s, consecutive, broken, cs[0]);
      SessionRuns(After1(m, s, consecutive, cs[0]), s, !cs[0].Do?, BrokenAfter(m, consecutive, broken, cs[0]), cs[1..]);
    }
  }

  /** The side tables stay in lockstep over every such session. */
  lemma SessionStaysInStep(start: Side, text: seq<byte>, m: Model, s: seq<byte>, consecutive: bool, broken: bool, cs: seq<Command>)
    requires Ok(m) && RowOk(m, consecutive, broken) && SafeSession(m, s, consecutive, broken, cs)
    requires m.moments != [] && Lockstep(start, text, m)
    ensures Runs(m, s, consecutive, cs)
    ensures var k := After(m, s, consecutive, cs);
      k.moments != [] && Lockstep(start, text, k)
  {
    hide Ok, Runs, After, Lockstep, SafeSession, RowOk;
    SessionRuns(m, s, consecutive, broken, cs);
    SessionLockstep(start, text, m, s, consecutive, cs);
  }

  /** Where a session can go wrong: in a full log the undo of the oldest record
      trims that record, and a redo and an undo behind it play the record after
      it on a text that has the right length exactly when that record is a
      write. */
  lemma TrimmedRedo(m: Model)
    requires Ok(m) && Full(m) && m.cursor == 1 && |m.records| >= 3 && MirrorLengths(m.moments, 1)
    ensures CanUndo(m) && UndoStep(m).undoing
    ensures CanUndo(RedoStep(UndoStep(m))) <==> m.records[1].op == OpWrite
  {
    hide UndoStep, RedoStep, Told, Undone, Counter, Loggable;
    var n, h := |m.records|, m.moments;
    NotEmpty(m);
    ChainUndo(m);
    UndoShape(m);
    var u := UndoStep(m);
    RedoShape(u);
    var k := RedoStep(u);
    FitsPlays(u.records[n - 1], |u.moments[n - 1].text|, Now(u));
    assert u.moments[n - 1] == h[n] && k.records[0] == u.records[0] == m.records[1] && k.moments[1] == u.moments[1] == h[2];
    assert |h[1].text| == |h[1 + (|h| - 1 - 1)].text|;
    assert |Now(k).text| == |h[1].text| && k.cursor == 1;
    NotEmpty(k);
    assert Fits(m.records[1], |h[1].text|, |h[2].text|);
    PlayedLength(m.records[1], |h[1].text|, |h[2].text|);
  }

  lemma NotEmpty(m: Model)
    requires m.records != []
    ensures Loggable(m)
  {
  }

  lemma PlayedLength(r: Record, a: nat, b: nat)
    requires Fits(r, a, b)
    ensures a == b <==> r.op == OpWrite
  {
  }

  /** A log full of insert records, k undos after it was filled. */
  ghost predicate FullOfInserts(m: Model, k: nat) {
    && InChain(m) && m.count == NB_LOGS_MAX - 1 == |m.records| && 2 * k <= NB_LOGS_MAX - 2 && m.cursor == NB_LOGS_MAX - 1 - 2 * k
    && forall i :: 0 <= i < NB_LOGS_MAX - 1 - k ==> m.records[i].op == OpInsert
  }

  /** Each undo there goes back one record and trims one. */
  lemma FullUndo(m: Model, k: nat)
    requires FullOfInserts(m, k) && 2 * (k + 1) <= NB_LOGS_MAX - 2
    ensures Loggable(m) && CanUndo(m) && FullOfInserts(UndoStep(m), k + 1)
  {
    hide UndoStep, Told, Undone, Counter, InChain;
    NotEmpty(m);
    ChainUndo(m);
    UndoShape(m);
    NotEmpty(UndoStep(m));
  }

  lemma {:induction false} FullUndos(m: Model, k: nat)
    requires Ok(m) && FullOfInserts(Rested(m), 0) && Loggable(m) && 0 < k && 2 * k <= NB_LOGS_MAX - 2
    ensures FullOfInserts(UndoMany(m, k), k)
    decreases k
  {
    hide UndoStep, FullOfInserts, Ok, InChain, CanUndo;
    if k > 1 {
      FullUndos(m, k - 1);
      FullUndo(UndoMany(m, k - 1), k - 1);
    } else {
      RestedChain(m);
      FullUndo(Rested(m), 0);
      assert UndoMany(m, 0) == m;
    }
  }

  /** One more insert at the start makes one more record. */
  lemma InsertAtStart(m: Model, e: Edit)
    requires CanEdit(m, e) && e.op == OpInsert && e.offset == 0 && !m.undoing && m.count == |m.records| < NB_LOGS_MAX - 1
    requires forall i :: 0 <= i < |m.records| ==> m.records[i].op == OpInsert && m.records[i].size > 0
    ensures var k := Edited1(m, e);
      && !k.undoing && k.count == |k.records| == |m.records| + 1
      && forall i :: 0 <= i < |k.records| ==> k.records[i].op == OpInsert && k.records[i].size > 0
  {
    hide Told, Ok;
    EditReady(m, e);
  }

  lemma FilledUp(m: Model)
    requires Ok(m) && !m.undoing && m.count == |m.records| == NB_LOGS_MAX - 1
    requires forall i :: 0 <= i < |m.records| ==> m.records[i].op == OpInsert
    ensures Loggable(m) && FullOfInserts(Rested(m), 0)
  {
    hide Fits;
    RestedChain(m);
    NotEmpty(m);
  }

  /** The last undo, a redo, and the undo that then does not fit. */
  lemma Misfit(m: Model, k: nat)
    requires FullOfInserts(m, k) && m.cursor == 1
    ensures Loggable(m) && CanUndo(m) && UndoStep(m).undoing && !CanUndo(RedoStep(UndoStep(m)))
    ensures RedoStep(UndoStep(m)).undoing
  {
    hide UndoStep, RedoStep, Told, Undone, Counter, MirrorLengths, Fits;
    NotEmpty(m);
    ChainUndo(m);
    UndoShape(m);
    RedoShape(UndoStep(m));
    SecondInsert(m, k);
    TrimmedRedo(m);
  }

  lemma SecondInsert(m: Model, k: nat)
    requires FullOfInserts(m, k) && m.cursor == 1
    ensures m.records[1].op != OpWrite
  {
  }

  /** As many inserts as fill the log, undos until nothing is left, and one redo:
      the next undo would play a record on a text that is too short for it. */
  method MisfitByRedo(b: EditBuffer)
    requires b.Valid() && !b.readOnly && b.State().records == [] && b.State().count == 0 && !b.State().undoing && |b.text.Text()| + NB_LOGS_MAX < TWO31
    modifies b`modified, b`cursor, b`history, b.log, b.log.buf, b.watch`points, b.watch`origin, b.watch`cells, b.watch.styles, b.text
    ensures b.Valid() && b.State().undoing && !CanUndo(b.State())
  {
    hide Flat, PageOk, LogBytes, Mark, Survives, Ok, UndoStep, RedoStep, FullOfInserts, UndoMany, CanUndo;
    FillWithInserts(b);
    ghost var m := b.State();
    FilledUp(m);
    var k := (NB_LOGS_MAX - 2) / 2;
    Undos(b, k);
    FullUndos(m, k);
    LastOne(b.State(), k);
    Misfit(b.State(), k);
    var _ := b.Undo(true);
    var _ := b.Redo(true);
  }

  lemma LastOne(m: Model, k: nat)
    requires FullOfInserts(m, k) && k == (NB_LOGS_MAX - 2) / 2
    ensures m.cursor == 1
  {
  }

  method FillWithInserts(b: EditBuffer)
    requires b.Valid() && !b.readOnly && b.State().records == [] && b.State().count == 0 && !b.State().undoing && |b.text.Text()| + NB_LOGS_MAX < TWO31
    modifies b`modified, b`cursor, b`history, b.log, b.log.buf, b.watch`points, b.watch`origin, b.watch`cells, b.watch.styles, b.text
    ensures b.Valid() && !b.State().undoing && b.State().count == |b.State().records| == NB_LOGS_MAX - 1
    ensures forall i :: 0 <= i < |b.State().records| ==> b.State().records[i].op == OpInsert
  {
    hide Flat, PageOk, LogBytes, Mark, Survives, Ok, CanEdit, Edited1, InsertAnywhere;
    ghost var t := b.text.Text();
    for n := 0 to NB_LOGS_MAX - 1
      invariant b.Valid() && !b.State().undoing && b.State().count == |b.State().records| == n && |b.text.Text()| == |t| + n
      invariant forall i :: 0 <= i < n ==> b.State().records[i].op == OpInsert && b.State().records[i].size > 0
    {
      ghost var m := b.State();
      OkNow(m);
      InsertClip(b.text.Text(), 0, [97]);
      var _ := b.Insert(0, [97]);
      InsertAtStart(m, Edit(OpInsert, 0, 1, [97]));
    }
  }

  /** How many records a command may add. */
  function Adds(c: Command): nat {
    match c
    case Do(CallRead(_, _)) => 0
    case Do(CallWrite(_, _)) => 2
    case Do(_) => 1
    case Undo => 1
    case Redo => 0
  }

  function AddsAll(cs: seq<Command>): nat {
    if cs == [] then 0 else Adds(cs[0]) + AddsAll(cs[1..])
  }

  lemma AddsOne(m: Model, e: Edit)
    requires CanEdit(m, e)
    ensures Edited1(m, e).count <= m.count + 1
  {
    hide Told, Ok;
    EditReady(m, e);
  }

  lemma {:induction false} AddsEdits(m: Model, es: seq<Edit>)
    requires CanEditAll(m, es)
    ensures EditedAll(m, es).count <= m.count + |es|
    decreases |es|
  {
    hide Ok, CanEdit, Edited1;
    if es != [] {
      AddsOne(m, es[0]);
      AddsEdits(Edited1(m, es[0]), es[1..]);
    }
  }

  lemma CallAdds(t: seq<byte>, s: seq<byte>, call: Call)
    ensures |CallEdits(t, s, call)| <= Adds(Do(call))
  {
    hide Window;
  }

  // A bound that can be checked beforehand

  /** How many bytes a call may add. */
  function Growth(s: seq<byte>, c: Command): nat {
    match c
    case Do(CallWrite(_, d)) => |d|
    case Do(CallInsert(_, d)) => |d|
    case Do(CallCopy(_, f, n)) => |Window(s, f, n)|
    case _ => 0
  }

  function GrowthAll(s: seq<byte>, cs: seq<Command>): nat {
    if cs == [] then 0 else Growth(s, cs[0]) + GrowthAll(s, cs[1..])
  }

  ghost predicate NoLonger(m: Model, n: nat) {
    forall i :: 0 <= i < |m.moments| ==> |m.moments[i].text| <= n
  }

  function InsertedBy(es: seq<Edit>): nat {
    if es == [] then 0 else (if es[0].op == OpInsert then es[0].size else 0) + InsertedBy(es[1..])
  }

  lemma EditNoLonger(m: Model, e: Edit, n: nat)
    requires CanEdit(m, e) && NoLonger(m, n)
    ensures NoLonger(Edited1(m, e), n + if e.op == OpInsert then e.size else 0)
  {
    hide Told, Ok;
    EditReady(m, e);
    assert |Now(m).text| <= n;
  }

  lemma {:induction false} EditsNoLonger(m: Model, es: seq<Edit>, n: nat)
    requires CanEditAll(m, es) && NoLonger(m, n)
    ensures NoLonger(EditedAll(m, es), n + InsertedBy(es))
    decreases |es|
  {
    hide Ok, CanEdit, Edited1, NoLonger;
    if es != [] {
      EditNoLonger(m, es[0], n);
      EditsNoLonger(Edited1(m, es[0]), es[1..], n + if es[0].op == OpInsert then es[0].size else 0);
    }
  }

  lemma InsertEditBy(o: nat, d: seq<byte>)
    ensures InsertedBy(InsertEdit(o, d)) == |d|
  {
    var es := InsertEdit(o, d);
    if es != [] { assert es[1..] == []; }
  }

  lemma WriteEditBy(o: nat, d: seq<byte>, fs: seq<Edit>)
    ensures InsertedBy(WriteEdit(o, d) + fs) == InsertedBy(fs)
  {
    var es := WriteEdit(o, d);
    if es == [] { assert es + fs == fs; } else { assert (es + fs)[0] == es[0] && (es + fs)[1..] == fs; }
  }

  lemma CallInserts(t: seq<byte>, s: seq<byte>, call: Call)
    ensures InsertedBy(CallEdits(t, s, call)) <= Growth(s, Do(call))
    ensures |Effect(t, s, call)| <= |t| + Growth(s, Do(call))
  {
    hide Window, InsertEdit, WriteEdit;
    match call
    case CallWrite(o, d) =>
      if 0 <= o <= |t| && d != [] {
        var w := Min(|d|, |t| - o);
        WriteEditBy(o, d[..w], InsertEdit(o + w, d[w..]));
        InsertEditBy(o + w, d[w..]);
      }
    case CallInsert(o, d) => if o >= 0 { InsertEditBy(Min(o, |t|), d); }
    case CallCopy(o, f, n) => if o >= 0 { InsertEditBy(Min(o, |t|), Window(s, f, n)); }
    case _ =>
  }

  lemma StepNoLonger(m: Model, s: seq<byte>, consecutive: bool, c: Command, n: nat)
    requires Ready(m, s, consecutive, c) && NoLonger(m, n)
    ensures NoLonger(After1(m, s, consecutive, c), n + Growth(s, c))
  {
    hide Ok, EditedAll, CallEdits, UndoStep, RedoStep, Effect, NoLonger, CanEditAll, CanUndo;
    OkNow(m);
    RestedNoLonger(m, n);
    match c
    case Do(call) =>
      CallFits(m, s, call);
      CallInserts(Now(m).text, s, call);
      EditsNoLonger(m, CallEdits(Now(m).text, s, call), n);
      Longer(After1(m, s, consecutive, c), n + InsertedBy(CallEdits(Now(m).text, s, call)), n + Growth(s, c));
    case Undo => UndoNoLonger(if consecutive then m else Rested(m), n);
    case Redo =>
      RestedOk(m);
      RedoNoLonger(if consecutive then m else Rested(m), n);
  }

  lemma Longer(m: Model, n: nat, k: nat)
    requires NoLonger(m, n) && n <= k
    ensures NoLonger(m, k)
  {
  }

  lemma RestedNoLonger(m: Model, n: nat)
    requires NoLonger(m, n)
    ensures NoLonger(Rested(m), n)
  {
  }

  lemma UndoNoLonger(m: Model, n: nat)
    requires CanUndo(m) && NoLonger(m, n)
    ensures NoLonger(UndoStep(m), n)
  {
    hide UndoStep, Told, Undone, Counter, Fits;
    if m.cursor > 0 { UndoShape(m); } else { NoUndo(m); }
  }

  lemma RedoNoLonger(m: Model, n: nat)
    requires Ok(m) && NoLonger(m, n)
    ensures NoLonger(RedoStep(m), n)
  {
    hide RedoStep, Told, Undone, Fits;
    NoRedo(m);
    if m.undoing {
      RedoShape(m);
      FitsPlays(m.records[|m.records| - 1], |m.moments[|m.records| - 1].text|, Now(m));
    }
  }

  /** Conditions that can be checked before a session: its texts fit an int, and
      no redo comes after the log may be full. */
  ghost predicate Bounded(m: Model, s: seq<byte>, first: seq<Command>, rest: seq<Command>, n: nat) {
    && Loggable(m) && NoLonger(m, n) && n + GrowthAll(s, first + rest) < TWO31 && RedoCount(rest) == 0
    && (first != [] ==> m.count + AddsAll(first) < NB_LOGS_MAX - 1)
  }

  lemma StepAdds(m: Model, s: seq<byte>, consecutive: bool, c: Command)
    requires Ready(m, s, consecutive, c)
    ensures var k := After1(m, s, consecutive, c);
      k.count <= m.count + Adds(c) && (!c.Redo? && Loggable(m) ==> Loggable(k))
  {
    hide Ok, EditedAll, CallEdits, UndoStep, RedoStep, Effect, CanUndo, CanEditAll, Loggable;
    match c
    case Do(call) =>
      CallFits(m, s, call);
      OkNow(m);
      CallAdds(Now(m).text, s, call);
      AddsEdits(m, CallEdits(Now(m).text, s, call));
    case Undo =>
      RestedSame(m);
      UndoAdds(Resumed(m, consecutive));
    case Redo =>
      RestedOk(m);
      RedoAdds(Resumed(m, consecutive));
  }

  lemma UndoAdds(m: Model)
    requires CanUndo(m)
    ensures UndoStep(m).count <= m.count + 1 && (Loggable(m) ==> Loggable(UndoStep(m)))
  {
    hide UndoStep, Told, Undone, Counter, Fits;
    if m.cursor > 0 { UndoShape(m); } else { NoUndo(m); }
  }

  lemma RedoAdds(m: Model)
    requires Ok(m)
    ensures RedoStep(m).count == m.count
  {
    hide RedoStep, Told, Undone, Fits;
    NoRedo(m);
    if m.undoing { RedoShape(m); }
  }

  /** Such a session is safe. */
  lemma {:induction false} BoundedSafe(m: Model, s: seq<byte>, consecutive: bool, broken: bool, first: seq<Command>, rest: seq<Command>, n: nat)
    requires Ok(m) && Bounded(m, s, first, rest, n) && (first != [] ==> !broken)
    ensures SafeSession(m, s, consecutive, broken, first + rest)
    decreases |first| + |rest|
  {
    hide Ok, Ready, After1, Effect, Growth, NoLonger;
    var cs := first + rest;
    if cs != [] {
      var c := cs[0];
      var a, b := if first != [] then first[1..] else [], if first != [] then rest else rest[1..];
      assert cs[1..] == a + b;
      assert first != [] ==> c == first[0];
      BoundedStep(m, s, c, n);
      if Ready(m, s, consecutive, c) {
        var k := After1(m, s, consecutive, c);
        StepNoLonger(m, s, consecutive, c, n);
        StepAdds(m, s, consecutive, c);
        assert Bounded(k, s, a, b, n + Growth(s, c));
        BoundedSafe(k, s, !c.Do?, BrokenAfter(m, consecutive, broken, c), a, b, n + Growth(s, c));
      }
    }
  }

  lemma BoundedStep(m: Model, s: seq<byte>, c: Command, n: nat)
    requires Ok(m) && NoLonger(m, n) && n + Growth(s, c) < TWO31
    ensures SmallCall(m, s, c)
  {
    hide Effect, Growth;
    if c.Do? {
      assert |Now(m).text| <= n;
      CallInserts(Now(m).text, s, c.call);
    }
  }

  /** A safe session on a buffer, behind some other command: text, log and side
      tables become those of the session on the value, and the side tables stay
      in lockstep. */
  method RunSession(b: EditBuffer, src: PagedBuffer, cs: seq<Command>)
    requires b.Valid() && !b.readOnly && src.Valid() && src != b.text && src != b.log.buf && src != b.watch.styles
    requires SafeSession(b.State(), src.Text(), false, false, cs)
    modifies b`modified, b`cursor, b`history, b.log, b.log.buf, b.watch`points, b.watch`origin, b.watch`cells, b.watch.styles, b.text, src`curPage, src`curOffset
    ensures b.Valid() && src.Valid()
    ensures var m := old(b.State());
      Runs(m, src.Text(), false, cs) && b.State() == After(m, src.Text(), false, cs)
    ensures forall start: Side, text :: old(b.State()).moments != [] && Lockstep(start, text, old(b.State())) ==>
      b.State().moments != [] && Lockstep(start, text, b.State())
  {
    hide Flat, PageOk, LogBytes, Mark, Survives, Ok, Runs, After, Lockstep, SafeSession, InStep;
    ghost var m := b.State();
    NoRow(m);
    SessionRuns(m, src.Text(), false, false, cs);
    forall start: Side, text | m.moments != [] && Lockstep(start, text, m)
      ensures After(m, src.Text(), false, cs).moments != [] && Lockstep(start, text, After(m, src.Text(), false, cs))
    {
      SessionLockstep(start, text, m, src.Text(), false, cs);
    }
    Session(b, src, false, cs);
  }
}
