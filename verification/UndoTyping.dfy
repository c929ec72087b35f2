/** Typing and undo (buffer.c): adjacent inserts share one record, so that one undo
    takes all of them back; every other insert gets a record of its own. */
module UndoTyping {
  import opened Bytes
  import opened Pages
  import opened PagedText
  import opened PagedOps
  import opened UndoRecords
  import opened UndoLogs
  import opened SideTables
  import opened UndoModels
  import opened UndoTheorems
  import opened EditBuffers
  import opened UndoSessions
  import opened UndoWholeRuns

  function Joined(ds: seq<seq<byte>>): seq<byte> {
    if ds == [] then [] else Joined(ds[..|ds| - 1]) + ds[|ds| - 1]
  }

  /** Inserts from o on, each where the one before ended. */
  function Typed(o: nat, ds: seq<seq<byte>>): seq<Edit> {
    if ds == [] then []
    else
      var init, d := ds[..|ds| - 1], ds[|ds| - 1];
      Typed(o, init) + [Edit(OpInsert, o + |Joined(init)|, |d|, d)]
  }

  predicate AllSome(ds: seq<seq<byte>>) {
    forall i :: 0 <= i < |ds| ==> ds[i] != []
  }

  /** The last thing logged is not an insert: it was a delete or a write, or there
      is none. */
  predicate Fresh(m: Model) {
    m.records == [] || m.last != OpCode(OpInsert)
  }

  lemma FreshAfter(m: Model, e: Edit)
    requires CanEdit(m, e)
    ensures Fresh(Edited1(m, e)) <==> e.op != OpInsert
  {
    hide Told, Ok, Trimmed;
    EditReady(m, e);
    EnteredShape(m, Recorded(Now(m), e.op, e.offset, e.size), Snap(EditText(Now(m).text, e), true));
  }

  /** An insert grows the last record exactly when an insert was the last thing
      logged and it ended where this one starts. */
  lemma InsertGrows(m: Model, e: Edit)
    requires CanEdit(m, e) && e.op == OpInsert
    ensures Edited1(m, e).last == OpCode(OpInsert)
    ensures var k, t := Edited1(m, e), if Full(m) then 1 else 0;
      var rs, ms := m.records[t..], m.moments[t..];
      var n := |rs|;
      if m.last == OpCode(OpInsert) && n > 0 && rs[n - 1].op == OpInsert && rs[n - 1].offset + rs[n - 1].size == e.offset
      then k.records == rs[..n - 1] + [rs[n - 1].(size := rs[n - 1].size + e.size)] && k.moments == ms[..n] + [Now(k)]
      else |k.records| == n + 1 && k.records[..n] == rs && k.records[n] == Record(OpInsert, Now(m).modified, e.offset, e.size, []) && k.moments == ms + [Now(k)]
  {
    hide Told, Ok;
    EditReady(m, e);
    OkNow(m);
    assert m.records[0..] == m.records && m.moments[0..] == m.moments;
  }

  /** The log of m without its oldest records, if it was full or came to be, and one
      record more, for the insert of d at o. */
  ghost predicate OneMore(m: Model, k: Model, o: nat, d: seq<byte>) {
    var t := |m.records| + 1 - |k.records|;
    && Ok(m) && o <= |Now(m).text| && d != [] && o + |d| < TWO31 && k.last == OpCode(OpInsert)
    && 0 <= t <= |m.records| && (t == 0 || m.count - t >= NB_LOGS_MAX - 3) && k.count == m.count + 1 - t
    && k.records == m.records[t..] + [Record(OpInsert, Now(m).modified, o, |d|, [])]
    && k.moments == m.moments[t..] + [Snap(Inserted(Now(m).text, o, d), true)]
  }

  /** A run of n adjacent inserts does not trim its own record: it is short, or the
      count does not exceed the records so far that the log stays full. In a log
      that counts right there is no such excess. */
  predicate Keeps(m: Model, n: nat) {
    n <= 1 || n <= |m.records| || m.count - |m.records| <= NB_LOGS_MAX - 3
  }

  /** An insert behind something else makes its own record. */
  lemma FirstInsert(m: Model, o: nat, d: seq<byte>)
    requires CanEdit(m, Edit(OpInsert, o, |d|, d)) && Fresh(m)
    ensures OneMore(m, Edited1(m, Edit(OpInsert, o, |d|, d)), o, d)
  {
    hide Told;
    EditReady(m, Edit(OpInsert, o, |d|, d));
    assert m.records[0..] == m.records && m.moments[0..] == m.moments;
  }

  /** An insert that starts where the last one ended does not. */
  lemma NextInsert(m: Model, k: Model, o: nat, d: seq<byte>, e: seq<byte>)
    requires OneMore(m, k, o, d) && (Full(k) ==> |k.records| > 1) && CanEdit(k, Edit(OpInsert, o + |d|, |e|, e))
    ensures OneMore(m, Edited1(k, Edit(OpInsert, o + |d|, |e|, e)), o, d + e)
  {
    hide Ok, Edited1, Entered, Recorded, Told, Fits, Edited, CanEdit, Inserted;
    OkNow(m);
    var more, s, t, f := Edit(OpInsert, o + |d|, |e|, e), Now(m), |m.records| + 1 - |k.records|, if Full(k) then 1 else 0;
    EditReady(k, more);
    TypedText(s.text, o, d, e);
    InsertGrows(k, more);
    DropFirst(m.records, t, Record(OpInsert, s.modified, o, |d|, []), f);
    DropFirst(m.moments, t, Snap(Inserted(s.text, o, d), true), f);
  }

  lemma DropFirst<T>(s: seq<T>, t: nat, x: T, f: nat)
    requires t + f <= |s|
    ensures (s[t..] + [x])[f..] == s[t + f..] + [x] && (s[t + f..] + [x])[..|s| - t - f] == s[t + f..]
  {
  }

  lemma {:induction false} TypedSplit(m: Model, es: seq<Edit>, e: Edit)
    requires CanEditAll(m, es + [e])
    ensures CanEditAll(m, es) && CanEdit(EditedAll(m, es), e) && EditedAll(m, es + [e]) == Edited1(EditedAll(m, es), e)
    decreases |es|
  {
    hide Ok, CanEdit, Edited1, Loggable;
    if es == [] {
      assert es + [e] == [e];
    } else {
      assert (es + [e])[0] == es[0] && (es + [e])[1..] == es[1..] + [e];
      TypedSplit(Edited1(m, es[0]), es[1..], e);
    }
  }

  /** Typing: any number of adjacent inserts of any size makes one record, and trims
      at most as many. */
  lemma {:induction false} TypedOneRecord(m: Model, o: nat, ds: seq<seq<byte>>)
    requires ds != [] && AllSome(ds) && CanEditAll(m, Typed(o, ds)) && Fresh(m) && Keeps(m, |ds|)
    ensures OneMore(m, EditedAll(m, Typed(o, ds)), o, Joined(ds)) && |m.records| + 1 - |EditedAll(m, Typed(o, ds)).records| <= |ds|
    decreases |ds|
  {
    hide Ok, CanEdit, Edited1, OneMore, CanEditAll, EditedAll;
    var init, d := ds[..|ds| - 1], ds[|ds| - 1];
    var e := Edit(OpInsert, o + |Joined(init)|, |d|, d);
    TypedSplit(m, Typed(o, init), e);
    var k := EditedAll(m, Typed(o, init));
    if init == [] {
      NoTyped(m);
      assert Joined(ds) == d;
      FirstInsert(m, o, d);
      InsertGrows(m, e);
    } else {
      TypedOneRecord(m, o, init);
      CountOf(m, k, o, Joined(init));
      InsertGrows(k, e);
      NextInsert(m, k, o, Joined(init), d);
    }
  }

  lemma NoTyped(m: Model)
    requires CanEditAll(m, [])
    ensures EditedAll(m, []) == m
  {
  }

  lemma CountOf(m: Model, k: Model, o: nat, d: seq<byte>)
    requires OneMore(m, k, o, d)
    ensures |k.records| > 0 && |k.moments| == |k.records| + 1 && k.moments[|k.records| - 1] == Now(m)
    ensures Linked(k.records, k.moments, |k.records| - 1) && k.count - |k.records| == m.count - |m.records|
  {
    hide Ok;
    OkNow(m);
    InsertLinks(Now(m), o, d, true);
  }

  /** A log whose count exceeds its records by that much stays full while n strings
      are typed: each insert but the first loses a record until one is left. */
  ghost predicate Worn(m: Model, k: Model, end: nat, n: nat) {
    && k.last == OpCode(OpInsert) && k.count - |k.records| == m.count - |m.records|
    && |k.records| == (if n < |m.records| then |m.records| + 1 - n else 1) && |k.moments| == |k.records| + 1
    && k.records[|k.records| - 1].op == OpInsert && k.records[|k.records| - 1].offset + k.records[|k.records| - 1].size == end
  }

  lemma {:induction false} TypedWorn(m: Model, o: nat, ds: seq<seq<byte>>)
    requires ds != [] && AllSome(ds) && CanEditAll(m, Typed(o, ds)) && Fresh(m) && m.count - |m.records| > NB_LOGS_MAX - 3
    ensures Worn(m, EditedAll(m, Typed(o, ds)), o + |Joined(ds)|, |ds|)
    ensures |Now(EditedAll(m, Typed(o, ds))).text| == |Now(m).text| + |Joined(ds)|
    decreases |ds|
  {
    hide Ok, CanEdit, Edited1, CanEditAll, EditedAll;
    var init, d := ds[..|ds| - 1], ds[|ds| - 1];
    var e := Edit(OpInsert, o + |Joined(init)|, |d|, d);
    TypedSplit(m, Typed(o, init), e);
    var k := EditedAll(m, Typed(o, init));
    if init == [] { NoTyped(m); } else { TypedWorn(m, o, init); }
    EditReady(k, e);
    InsertGrows(k, e);
  }

  /** Then the last string has a record of its own. */
  lemma TypedLost(m: Model, o: nat, ds: seq<seq<byte>>)
    requires ds != [] && AllSome(ds) && CanEditAll(m, Typed(o, ds)) && Fresh(m) && !Keeps(m, |ds|)
    ensures |Now(UndoMany(EditedAll(m, Typed(o, ds)), 1)).text| > |Now(m).text|
  {
    hide Ok, CanEdit, Edited1, CanEditAll, EditedAll, UndoMany;
    var init, d := ds[..|ds| - 1], ds[|ds| - 1];
    var e := Edit(OpInsert, o + |Joined(init)|, |d|, d);
    TypedSplit(m, Typed(o, init), e);
    var k, q := EditedAll(m, Typed(o, init)), EditedAll(m, Typed(o, ds));
    TypedWorn(m, o, init);
    EditReady(k, e);
    InsertGrows(k, e);
    InsertLinks(Now(k), e.offset, d, true);
    OneUndoGives(q);
    assert init[|init| - 1] == ds[|init| - 1];
  }

  /** One undo takes back everything that was typed, and the modified flag, exactly
      when the run has not trimmed its own record. */
  lemma TypedUndone(m: Model, o: nat, ds: seq<seq<byte>>)
    requires ds != [] && AllSome(ds) && CanEditAll(m, Typed(o, ds)) && Fresh(m)
    ensures Now(UndoMany(EditedAll(m, Typed(o, ds)), 1)) == Now(m) <==> Keeps(m, |ds|)
  {
    hide Ok, OneMore, CanEditAll, EditedAll, Linked, UndoMany, Loggable, Keeps;
    var k := EditedAll(m, Typed(o, ds));
    if Keeps(m, |ds|) {
      TypedOneRecord(m, o, ds);
      CountOf(m, k, o, Joined(ds));
      OneUndoGives(k);
    } else {
      TypedLost(m, o, ds);
    }
  }

  /** Behind an undo that does not mean always: the undo of a delete has put its
      bytes back with an insert record, and an insert right behind them grows it.
      Any other insert after an undo gets its own record. */
  lemma InsertAfterUndo(m: Model, e: Edit)
    requires CanUndo(m) && m.cursor > 0 && CanEdit(UndoStep(m), e) && e.op == OpInsert
    ensures var r, u := m.records[m.cursor - 1], UndoStep(m);
      var kept := |u.records| - if Full(u) then 1 else 0;
      && |Edited1(u, e).records| == (if r.op == OpDelete && e.offset == r.offset + r.size && kept > 0 then kept else kept + 1)
  {
    hide UndoStep, Told, Undone, Counter, Fits, CanEdit, Edited1;
    UndoShape(m);
    CounterIs(m.records[m.cursor - 1], Now(m));
    InsertGrows(UndoStep(m), e);
  }

  // On a buffer

  /** What typing leaves can be typed. */
  ghost predicate RoomFor(t: seq<byte>, ds: seq<seq<byte>>) {
    |t| + |Joined(ds)| < TWO31
  }

  lemma TypedText(t: seq<byte>, o: nat, d: seq<byte>, e: seq<byte>)
    requires o <= |t|
    ensures |Inserted(t, o, d)| == |t| + |d| && Inserted(Inserted(t, o, d), o + |d|, e) == Inserted(t, o, d + e)
  {
    var u := Inserted(t, o, d);
    assert u[..o + |d|] == t[..o] + d && u[o + |d|..] == t[o..];
  }

  lemma TakeTyped(ds: seq<seq<byte>>, i: nat)
    requires i < |ds|
    ensures Joined(ds[..i + 1]) == Joined(ds[..i]) + ds[i] && |Joined(ds[..i + 1])| <= |Joined(ds)|
    ensures forall o: nat :: Typed(o, ds[..i + 1]) == Typed(o, ds[..i]) + [Edit(OpInsert, o + |Joined(ds[..i])|, |ds[i]|, ds[i])]
  {
    assert ds[..i + 1][..i] == ds[..i];
    JoinedLength(ds, i + 1);
  }

  lemma {:induction false} JoinedLength(ds: seq<seq<byte>>, i: nat)
    requires i <= |ds|
    ensures |Joined(ds[..i])| <= |Joined(ds)|
    decreases |ds|
  {
    if i < |ds| {
      var init := ds[..|ds| - 1];
      JoinedLength(init, i);
      assert init[..i] == ds[..i];
    } else {
      assert ds[..i] == ds;
    }
  }

  /** Type the strings one after the other. */
  method Type(b: EditBuffer, o: nat, ds: seq<seq<byte>>)
    requires b.Valid() && !b.readOnly && Loggable(b.State()) && o <= |b.text.Text()| && AllSome(ds) && RoomFor(b.text.Text(), ds)
    modifies b`modified, b`cursor, b`history, b.log, b.log.buf, b.watch`points, b.watch`origin, b.watch`cells, b.watch.styles, b.text
    ensures b.Valid() && b.text.Text() == Inserted(old(b.text.Text()), o, Joined(ds))
    ensures CanEditAll(old(b.State()), Typed(o, ds)) && b.State() == EditedAll(old(b.State()), Typed(o, ds))
  {
    hide Flat, PageOk, LogBytes, Mark, Survives, Watchers.Valid, UndoLog.Valid, UndoLog.At, Ok, Inserted, InsertAnywhere, CanEdit, Edited1, CanEditAll, EditedAll, Loggable, Joined, Typed;
    ghost var m, t := b.State(), b.text.Text();
    NothingTyped(m, t, o);
    var at := o;
    assert ds[..0] == [];
    for i := 0 to |ds|
      invariant b.Valid() && Loggable(b.State()) && at == o + |Joined(ds[..i])| && b.text.Text() == Inserted(t, o, Joined(ds[..i]))
      invariant CanEditAll(m, Typed(o, ds[..i])) && b.State() == EditedAll(m, Typed(o, ds[..i]))
    {
      ghost var now, es := b.State(), Typed(o, ds[..i]);
      TakeTyped(ds, i);
      TypedText(t, o, Joined(ds[..i]), ds[i]);
      InsertClip(b.text.Text(), at, ds[i]);
      var _ := b.Insert(at, ds[i]);
      OneEdit(now, Edit(OpInsert, at, |ds[i]|, ds[i]));
      EditsAppend(m, es, [Edit(OpInsert, at, |ds[i]|, ds[i])]);
      at := at + |ds[i]|;
    }
    assert ds[..|ds|] == ds;
  }

  lemma NothingTyped(m: Model, t: seq<byte>, o: nat)
    requires Ok(m) && Loggable(m) && o <= |t|
    ensures Joined([]) == [] && Typed(o, []) == [] && Inserted(t, o, []) == t && CanEditAll(m, []) && EditedAll(m, []) == m
  {
  }

  /** Typing and one undo: text and flag are those from before the first key. */
  method TypeThenUndo(b: EditBuffer, o: nat, ds: seq<seq<byte>>)
    requires b.Valid() && !b.readOnly && o <= |b.text.Text()| && ds != [] && AllSome(ds) && RoomFor(b.text.Text(), ds)
    requires (b.log.records == [] || b.log.lastLog != OpCode(OpInsert)) && (b.log.Full() ==> b.log.records != [])
    modifies b`modified, b`cursor, b`history, b.log, b.log.buf, b.watch`points, b.watch`origin, b.watch`cells, b.watch.styles, b.text
    ensures b.Valid() && (b.Here() == old(b.Here()) <==> Keeps(old(b.State()), |ds|))
  {
    hide Flat, PageOk, LogBytes, Mark, Survives, Ok, CanEditAll, EditedAll, UndoMany, AllSome, Joined, Typed, Inserted;
    ghost var m := b.State();
    OkNow(m);
    Type(b, o, ds);
    TypedUndone(m, o, ds);
    Undos(b, 1);
  }
}
