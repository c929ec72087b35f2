/** An edit buffer with its undo log as a value, and what edits, do_undo and
    do_redo make of it (buffer.c). Moment i lies before record i; the last
    moment is now. */
module UndoModels {
  import opened Bytes
  import opened PagedText
  import opened UndoRecords
  import opened UndoLogs
  import opened SideTables

  /** cursor is the moment that log_current stands for, undoing says that
      log_current is not 0, count is nb_logs and last is last_log. */
  datatype Model = Model(records: seq<Record>, moments: seq<Snap>, cursor: nat, undoing: bool, count: int, last: byte, side: Side)

  function Now(m: Model): Snap
    requires m.moments != []
  {
    m.moments[|m.moments| - 1]
  }

  predicate Full(m: Model) {
    m.count >= NB_LOGS_MAX - 1
  }

  /** A full log has a record to trim. */
  predicate Loggable(m: Model) {
    Full(m) ==> m.records != []
  }

  /** By its lengths, the record leads from a text of b bytes back to one of a. */
  predicate Fits(r: Record, a: nat, b: nat) {
    RecordOk(r) &&
    match r.op
    case OpInsert => r.offset + r.size <= b && a == b - r.size
    case OpDelete => r.offset <= b && a == b + r.size
    case OpWrite => r.offset + r.size <= b && a == b
  }

  ghost predicate Ok(m: Model) {
    && |m.moments| == |m.records| + 1 && |m.records| <= m.count
    && (forall i :: 0 <= i < |m.records| ==> Fits(m.records[i], |m.moments[i].text|, |m.moments[i + 1].text|))
    && (forall i :: 0 <= i < |m.moments| ==> |m.moments[i].text| < TWO31)
    && SideOk(m.side) && |m.side.origin| == |Now(m).text|
    && (if m.undoing then m.cursor < |m.records| else m.cursor == |m.records|)
  }

  lemma FitsPlays(r: Record, a: nat, s: Snap)
    requires Fits(r, a, |s.text|)
    ensures Applies(r, s.text) && |Undone(r, s).text| == a
  {
  }

  lemma LinkFits(r: Record, before: Snap, after: Snap)
    requires Link(r, before, after)
    ensures Fits(r, |before.text|, |after.text|)
  {
  }

  /** The counter record fits the way back. */
  lemma CounterFits(r: Record, a: nat, s: Snap)
    requires Fits(r, a, |s.text|)
    ensures Applies(r, s.text) && Fits(Counter(r, s), |s.text|, a)
  {
  }

  /** The moments after eb_addlog and the edit. */
  function Moments(h: seq<Snap>, full: bool, merged: bool, now: Snap): seq<Snap>
    requires |h| > 0 && (full ==> |h| > 1)
  {
    var kept := if full then h[1..] else h;
    if merged then kept[..|kept| - 1] + [now] else kept + [now]
  }

  /** eb_addlog with record r and its callbacks: the oldest record may go, and r
      may continue the last one. The moments wait for the change of the text. */
  function Announced(m: Model, r: Record): Model
    requires SideOk(m.side) && Within(|m.side.origin|, r.op, r.offset, r.size)
  {
    var records := Added(Trimmed(m.records, Full(m)), m.last, r);
    Model(records, m.moments,
          if !m.undoing then |records| else if Full(m) && m.cursor > 0 then m.cursor - 1 else m.cursor,
          m.undoing, m.count - |m.records| + |records|, OpCode(r.op), Told(m.side, r.op, r.offset, r.size))
  }

  /** eb_addlog with record r, and the change that leads to now. */
  ghost function Entered(m: Model, r: Record, now: Snap): Model
    requires Ok(m) && Loggable(m) && Fits(r, |Now(m).text|, |now.text|)
  {
    FitsWithin(r, |Now(m).text|, |now.text|);
    var base := Trimmed(m.records, Full(m));
    Announced(m, r).(moments := Moments(m.moments, Full(m), Merges(base, m.last, r), now))
  }

  lemma EnteredShape(m: Model, r: Record, now: Snap)
    requires Ok(m) && Loggable(m) && Fits(r, |Now(m).text|, |now.text|)
    ensures var k := Entered(m, r, now);
      && k.records != [] && |k.moments| == |k.records| + 1 && Now(k) == now
      && k.count - |k.records| == m.count - |m.records|
      && |k.side.origin| == |now.text| && SideOk(k.side) && k.side.styled == m.side.styled && k.undoing == m.undoing
      && (if k.undoing then k.cursor < |k.records| else k.cursor == |k.records|)
  {
    hide Fits, Moved, Restyled;
    FitsWithin(r, |Now(m).text|, |now.text|);
  }

  lemma FitsWithin(r: Record, a: nat, b: nat)
    requires Fits(r, a, b)
    ensures Within(a, r.op, r.offset, r.size) && RecordOk(r)
    ensures b == match r.op case OpInsert => a + r.size case OpDelete => a - r.size case OpWrite => a
  {
  }

  lemma EnteredOk(m: Model, r: Record, now: Snap)
    requires Ok(m) && Loggable(m) && Fits(r, |Now(m).text|, |now.text|) && |now.text| < TWO31
    ensures Ok(Entered(m, r, now))
  {
    hide Told;
    EnteredShape(m, r, now);
    var k, base, shift := Entered(m, r, now), Trimmed(m.records, Full(m)), (if Full(m) then 1 else 0);
    forall i | 0 <= i < |k.records|
      ensures Fits(k.records[i], |k.moments[i].text|, |k.moments[i + 1].text|)
    {
      if i < |base| {
        assert base[i] == m.records[i + shift];
        assert Fits(m.records[i + shift], |m.moments[i + shift].text|, |m.moments[i + shift + 1].text|);
      }
    }
  }

  // What the records lead back to

  /** Record i leads from moment i + 1 back to moment i. */
  ghost predicate Linked(rs: seq<Record>, h: seq<Snap>, i: nat) {
    i < |rs| && i + 1 < |h| && Link(rs[i], h[i], h[i + 1])
  }

  ghost predicate AllLinked(m: Model) {
    forall i :: 0 <= i < |m.records| ==> Linked(m.records, m.moments, i)
  }

  /** The old links survive, one place further down when a record was trimmed. */
  ghost predicate LinksKept(m: Model, full: bool, k: Model) {
    var shift := if full then 1 else 0;
    forall i :: 0 <= i < |m.records| - shift && i < |k.records| && Linked(m.records, m.moments, i + shift) ==> Linked(k.records, k.moments, i)
  }

  /** An edit keeps the links, and its own record is linked when it is exact. A
      record that grows must grow by what was inserted. */
  lemma EnteredLinks(m: Model, r: Record, now: Snap, d: seq<byte>)
    requires Ok(m) && Loggable(m) && Fits(r, |Now(m).text|, |now.text|)
    requires Merges(Trimmed(m.records, Full(m)), m.last, r) ==> r.offset <= |Now(m).text| && |d| == r.size && now.text == Inserted(Now(m).text, r.offset, d)
    ensures LinksKept(m, Full(m), Entered(m, r, now))
    ensures var k := Entered(m, r, now);
      !Merges(Trimmed(m.records, Full(m)), m.last, r) && Link(r, Now(m), now) ==> Linked(k.records, k.moments, |k.records| - 1)
  {
    hide Told, Link;
    EnteredShape(m, r, now);
    var k, base, shift := Entered(m, r, now), Trimmed(m.records, Full(m)), (if Full(m) then 1 else 0);
    var merged := Merges(base, m.last, r);
    forall i | 0 <= i < |m.records| - shift && i < |k.records| && Linked(m.records, m.moments, i + shift)
      ensures Linked(k.records, k.moments, i)
    {
      if merged && i == |base| - 1 {
        CoalescedLinks(base[i], m.moments[i + shift], Now(m), d, now.modified);
      }
    }
  }

  // Edits

  /** One logged edit with its bytes. */
  datatype Edit = Edit(op: Op, offset: nat, size: nat, data: seq<byte>)

  predicate EditFits(t: seq<byte>, e: Edit) {
    && 0 < e.size && Within(|t|, e.op, e.offset, e.size) && e.offset + e.size < TWO31
    && (e.op != OpDelete ==> |e.data| == e.size)
  }

  function EditText(t: seq<byte>, e: Edit): (u: seq<byte>)
    requires EditFits(t, e)
  {
    match e.op
    case OpInsert => Inserted(t, e.offset, e.data)
    case OpDelete => Deleted(t, e.offset, e.size)
    case OpWrite => Overwritten(t, e.offset, e.data)
  }

  lemma EditLinks(s: Snap, e: Edit)
    requires EditFits(s.text, e)
    ensures var r := Recorded(s, e.op, e.offset, e.size);
      Link(r, s, Snap(EditText(s.text, e), true)) && Fits(r, |s.text|, |EditText(s.text, e)|)
      && r.op == e.op && r.offset == e.offset && r.size == e.size
  {
    match e.op
    case OpInsert => InsertLinks(s, e.offset, e.data, true);
    case OpDelete => DeleteLinks(s, e.offset, e.size, true);
    case OpWrite => WriteLinks(s, e.offset, e.data, true);
    LinkFits(Recorded(s, e.op, e.offset, e.size), s, Snap(EditText(s.text, e), true));
  }

  ghost predicate CanEdit(m: Model, e: Edit) {
    Ok(m) && Loggable(m) && EditFits(Now(m).text, e) && |EditText(Now(m).text, e)| < TWO31
  }

  ghost function Edited1(m: Model, e: Edit): (k: Model)
    requires CanEdit(m, e)
    ensures Ok(k) && Loggable(k) && Now(k) == Snap(EditText(Now(m).text, e), true)
    ensures k.count - |k.records| == m.count - |m.records|
  {
    var r, now := Recorded(Now(m), e.op, e.offset, e.size), Snap(EditText(Now(m).text, e), true);
    EditLinks(Now(m), e);
    EnteredOk(m, r, now);
    EnteredShape(m, r, now);
    Entered(m, r, now)
  }

  // Undo and redo

  /** The state when the last command was neither undo nor redo. */
  function Rested(m: Model): Model {
    m.(undoing := false, cursor := |m.records|)
  }

  /** The text has the length that the next undo expects. */
  ghost predicate CanUndo(m: Model) {
    Ok(m) && (m.cursor > 0 ==> Loggable(m) && |m.moments[m.cursor].text| == |Now(m).text|)
  }

  /** do_undo: play the record before the cursor and log its counter record. */
  ghost function UndoStep(m: Model): (k: Model)
    requires CanUndo(m)
    ensures Ok(k) && k.count - |k.records| == m.count - |m.records|
  {
    if m.cursor == 0 then m
    else
      var r, s, back := m.records[m.cursor - 1], Now(m), m.(cursor := m.cursor - 1, undoing := true, last := 0);
      FitsPlays(r, |m.moments[m.cursor - 1].text|, s);
      CounterFits(r, |m.moments[m.cursor - 1].text|, s);
      EnteredOk(back, Counter(r, s), Undone(r, s));
      EnteredShape(back, Counter(r, s), Undone(r, s));
      Entered(back, Counter(r, s), Undone(r, s))
  }

  /** do_undo as a command. */
  ghost function Undo1(m: Model, consecutive: bool): (k: Model)
    requires CanUndo(if consecutive then m else Rested(m))
    ensures Ok(k) && k.count - |k.records| == m.count - |m.records|
  {
    UndoStep(if consecutive then m else Rested(m))
  }

  /** The edit that the callbacks hear of when a record is played. */
  function CounterOp(op: Op): Op {
    match op case OpInsert => OpDelete case OpDelete => OpInsert case OpWrite => OpWrite
  }

  /** do_redo: play the last record and drop it; one record forward. */
  ghost function RedoStep(m: Model): (k: Model)
    requires Ok(m)
    ensures Ok(k)
  {
    if !m.undoing then m
    else
      var n := |m.records| - 1;
      var r, s := m.records[n], Now(m);
      FitsPlays(r, |m.moments[n].text|, s);
      FitsBack(r, |m.moments[n].text|, |s.text|);
      var more := m.cursor + 1 < n;
      var k := Model(m.records[..n], m.moments[..n] + [Undone(r, s)], if more then m.cursor + 1 else n, more, m.count, m.last,
                     Told(m.side, CounterOp(r.op), r.offset, r.size));
      RedoneOk(m, k);
      k
  }

  lemma FitsBack(r: Record, a: nat, b: nat)
    requires Fits(r, a, b)
    ensures Within(b, CounterOp(r.op), r.offset, r.size)
    ensures a == match CounterOp(r.op) case OpInsert => b + r.size case OpDelete => b - r.size case OpWrite => b
  {
  }

  lemma RedoneOk(m: Model, k: Model)
    requires Ok(m) && m.records != []
    requires var n := |m.records| - 1;
      && k.records == m.records[..n] && |k.moments| == n + 1 && k.moments[..n] == m.moments[..n] && |k.moments[n].text| == |m.moments[n].text|
      && k.count == m.count && SideOk(k.side) && |k.side.origin| == |m.moments[n].text|
      && (if k.undoing then k.cursor < n else k.cursor == n)
    ensures Ok(k)
  {
    var n := |m.records| - 1;
    forall i | 0 <= i < n
      ensures Fits(k.records[i], |k.moments[i].text|, |k.moments[i + 1].text|)
    {
      assert k.moments[i] == k.moments[..n][i] == m.moments[i];
      if i + 1 < n { assert k.moments[i + 1] == k.moments[..n][i + 1] == m.moments[i + 1]; }
    }
    forall i | 0 <= i < n + 1
      ensures |k.moments[i].text| < TWO31
    {
      if i < n { assert k.moments[i] == k.moments[..n][i] == m.moments[i]; }
    }
  }

  ghost function Redo1(m: Model, consecutive: bool): (k: Model)
    requires Ok(m)
    ensures Ok(k)
  {
    RedoStep(if consecutive then m else Rested(m))
  }

  /** Only the last moment depends on the modified flag. */
  lemma EnteredFlag(m: Model, r: Record, a: Snap, b: Snap)
    requires Ok(m) && Loggable(m) && Fits(r, |Now(m).text|, |a.text|) && |a.text| == |b.text|
    ensures var k := Entered(m, r, a);
      |k.moments| > 0 && Entered(m, r, b) == k.(moments := k.moments[..|k.moments| - 1] + [b])
  {
    hide Told, Fits;
    EnteredShape(m, r, a);
  }

  // Several edits

  ghost predicate CanEditAll(m: Model, es: seq<Edit>)
    decreases |es|
  {
    Ok(m) && Loggable(m) && (es == [] || (CanEdit(m, es[0]) && CanEditAll(Edited1(m, es[0]), es[1..])))
  }

  ghost function EditedAll(m: Model, es: seq<Edit>): (k: Model)
    requires CanEditAll(m, es)
    ensures Ok(k) && Loggable(k) && k.count - |k.records| == m.count - |m.records|
    decreases |es|
  {
    if es == [] then m else EditedAll(Edited1(m, es[0]), es[1..])
  }

  lemma NoEdits(m: Model)
    requires Ok(m) && Loggable(m)
    ensures CanEditAll(m, []) && EditedAll(m, []) == m
  {
  }

  lemma OneEdit(m: Model, e: Edit)
    requires CanEdit(m, e)
    ensures CanEditAll(m, [e]) && EditedAll(m, [e]) == Edited1(m, e)
  {
    NoEdits(Edited1(m, e));
  }

  lemma {:induction false} EditsAppend(m: Model, es: seq<Edit>, fs: seq<Edit>)
    requires CanEditAll(m, es) && CanEditAll(EditedAll(m, es), fs)
    ensures CanEditAll(m, es + fs) && EditedAll(m, es + fs) == EditedAll(EditedAll(m, es), fs)
    decreases |es|
  {
    hide Edited1, CanEdit, Ok, Loggable;
    if es == [] {
      assert es + fs == fs;
    } else {
      assert (es + fs)[0] == es[0] && (es + fs)[1..] == es[1..] + fs;
      EditsAppend(Edited1(m, es[0]), es[1..], fs);
    }
  }

  /** The edits of the two halves of eb_write. */
  function WriteEdit(o: nat, d: seq<byte>): seq<Edit> {
    if d == [] then [] else [Edit(OpWrite, o, |d|, d)]
  }

  function InsertEdit(o: nat, d: seq<byte>): seq<Edit> {
    if d == [] then [] else [Edit(OpInsert, o, |d|, d)]
  }

  /** The edits of eb_write: over bytes that exist, then behind them. */
  function WriteEdits(t: seq<byte>, o: int, d: seq<byte>): seq<Edit> {
    if o < 0 || o > |t| || d == [] then []
    else
      var w := Min(|d|, |t| - o);
      WriteEdit(o, d[..w]) + InsertEdit(o + w, d[w..])
  }
}
