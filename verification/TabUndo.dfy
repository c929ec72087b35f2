/** The tab commands can be undone: their edits leave a moment in the log to
    which undos lead back (extras.c, buffer.c). */
module TabUndo {
  import opened UndoRecords
  import opened UndoLogs
  import opened UndoModels
  import opened UndoTheorems
  import opened UndoLinks
  import opened UndoSessions
  import opened EditBuffers
  import opened Pages
  import opened PagedText
  import opened SideTables
  import opened Tabs

  /** A log that was full once counts nearly as much ever after. */
  lemma {:induction false} StaysHigh(m: Model, es: seq<Edit>)
    requires CanEditAll(m, es) && m.count >= NB_LOGS_MAX - 2
    ensures EditedAll(m, es).count >= NB_LOGS_MAX - 2
    decreases |es|
  {
    hide Ok, CanEdit, Edited1;
    if es != [] {
      EditedMoments(m, es[0]);
      StaysHigh(Edited1(m, es[0]), es[1..]);
    }
  }

  /** What one edit does to the count and the moments. */
  lemma EditedMoments(m: Model, e: Edit)
    requires CanEdit(m, e)
    ensures |m.moments| == |m.records| + 1 && Now(m) == m.moments[|m.records|]
    ensures var k := Edited1(m, e);
      && k.count - |k.records| == m.count - |m.records| && |k.moments| == |k.records| + 1
      && (m.count >= NB_LOGS_MAX - 2 ==> k.count >= NB_LOGS_MAX - 2)
      && (!Full(m) ==> |m.records| <= |k.records| && k.moments[..|m.records|] == m.moments[..|m.records|])
      && (!Full(m) && e.op == OpDelete ==> |k.records| == |m.records| + 1 && k.moments[..|m.records| + 1] == m.moments)
  {
    hide Told;
    EditLinks(Now(m), e);
  }

  /** Nothing trimmed: the first p moments stay. */
  lemma {:induction false} RunKeeps(m: Model, es: seq<Edit>, p: nat)
    requires CanEditAll(m, es) && p <= |m.records| < |m.moments| && EditedAll(m, es).count < NB_LOGS_MAX - 2
    ensures var k := EditedAll(m, es);
      && |m.records| <= |k.records| < |k.moments| && k.moments[..p] == m.moments[..p]
    decreases |es|
  {
    hide Ok, CanEdit, Edited1;
    if m.count >= NB_LOGS_MAX - 2 { StaysHigh(m, es); }
    if es != [] {
      var k := Edited1(m, es[0]);
      EditedMoments(m, es[0]);
      RunKeeps(k, es[1..], p);
      assert k.moments[..p] == k.moments[..|m.records|][..p];
      assert m.moments[..p] == m.moments[..|m.records|][..p];
    }
  }

  /** The moment before a run that begins with a delete is still there. */
  lemma CleanKeeps(m: Model, k: Model)
    requires Ok(m) && CleanRun(m, k) && k.count < NB_LOGS_MAX - 2
    ensures |m.moments| == |m.records| + 1 && |m.records| <= |k.records| < |k.moments| && k.moments[|m.records|] == Now(m)
    ensures Ok(k) && Loggable(k) && k.count - |k.records| == m.count - |m.records|
    ensures LinkedFrom(k, |m.records|)
  {
    hide Ok, CanEdit, Edited1, LinkedFrom;
    OkNow(m);
    var es: seq<Edit> :| CanEditAll(m, es) && EditedAll(m, es) == k && (es == [] || es[0].op == OpDelete);
    NoneBehind(m);
    EditedAllFrom(m, es, |m.records|);
    if es != [] {
      var j, n := Edited1(m, es[0]), |m.records|;
      EditedMoments(m, es[0]);
      if m.count >= NB_LOGS_MAX - 2 { StaysHigh(m, es); }
      RunKeeps(j, es[1..], n + 1);
      assert k.moments[n] == k.moments[..n + 1][n] == j.moments[..n + 1][n];
    }
  }

  lemma NoneBehind(m: Model)
    ensures LinkedFrom(m, |m.records|)
  {
  }

  /** As many undos as records were made give the text and the modified flag from
      before a run of a tab command. */
  lemma RunUndone(m: Model, k: Model)
    requires Ok(m) && Loggable(m) && CleanRun(m, k) && k.count < NB_LOGS_MAX - 2 && 2 * k.count - m.count < NB_LOGS_MAX
    ensures Ok(k) && Loggable(k) && k.count >= m.count && Now(UndoMany(k, k.count - m.count)) == Now(m)
  {
    hide Ok, CleanRun, LinkedFrom, UndoMany, Loggable;
    CleanKeeps(m, k);
    var j := k.count - m.count;
    UndoGives(k, j);
    WalkAll(|k.records|, k.count, j);
  }

  /** Undo a tab command on a buffer. */
  method UndoRun(e: EditBuffer, ghost m: Model, before: int)
    requires e.Valid() && !e.readOnly && Ok(m) && Loggable(m) && before == m.count
    requires CleanRun(m, e.State()) && e.log.nbLogs < NB_LOGS_MAX - 2 && 2 * e.log.nbLogs - before < NB_LOGS_MAX
    modifies e`modified, e`cursor, e`history, e.log, e.log.buf, e.watch`points, e.watch`origin, e.watch`cells, e.watch.styles, e.text
    ensures e.Valid() && e.Here() == Now(m)
  {
    hide Flat, PageOk, LogBytes, Mark, Survives, Ok, CleanRun, UndoMany;
    RunUndone(m, e.State());
    Undos(e, e.log.nbLogs - before);
  }
}
