/** do_tabify and do_untabify of extras.c: tabs and spaces change, the layout
    does not. */
module Tabs {
  import opened Bytes
  import opened Counting
  import opened Pages
  import opened PagedText
  import opened PagedOps
  import opened UndoRecords
  import opened UndoModels
  import SideTables
  import UndoLogs
  import opened EditBuffers
  import opened TabLayout
  import opened TabForms

  // The commands

  /** eb_prevc on the bytes before an offset, of which it sees the last ones. */
  function Prev(prev: seq<byte> -> Glyph, s: seq<byte>): (g: Glyph)
    requires s != []
    ensures 1 <= g.n <= |s|
  {
    var g := prev(if |s| > LOOKAHEAD then s[|s| - LOOKAHEAD..] else s);
    if 1 <= g.n <= |s| then g else g.(n := 1)
  }

  /** Read backward from `from`, no line end comes up before o. */
  ghost predicate NoLineEnd(prev: seq<byte> -> Glyph, t: seq<byte>, o: nat, from: nat)
    requires from <= |t|
    decreases from
  {
    from == o || (o < from &&
      var g := Prev(prev, t[..from]);
      g.c != LF && o <= from - g.n && NoLineEnd(prev, t, o, from - g.n))
  }

  lemma {:induction false} NoLineEndMore(prev: seq<byte> -> Glyph, t: seq<byte>, o: nat, from: nat)
    requires from <= |t| && 0 < o && NoLineEnd(prev, t, o, from) && Prev(prev, t[..o]).c != LF
    ensures NoLineEnd(prev, t, o - Prev(prev, t[..o]).n, from)
    decreases from
  {
    hide Prev;
    if from > o { NoLineEndMore(prev, t, o, from - Prev(prev, t[..from]).n); }
  }

  /** eb_goto_bol: back to the first line end that comes up, or to the start. */
  method GotoBol(b: PagedBuffer, prev: seq<byte> -> Glyph, from: nat) returns (o: nat)
    requires b.Valid() && from <= |b.Text()|
    modifies b`curPage, b`curOffset
    ensures b.Valid() && o <= from && (o == 0 || Prev(prev, b.Text()[..o]).c == LF) && NoLineEnd(prev, b.Text(), o, from)
  {
    hide Flat, PageOk, Prev;
    ghost var g, t := b.G(), b.Text();
    o := from;
    while o > 0
      invariant b.Valid() && b.G() == g && b.Text() == t && o <= from && NoLineEnd(prev, t, o, from)
    {
      var x := PrevChar(b, prev, o);
      if x.c == LF { break; }
      NoLineEndMore(prev, t, o, from);
      o := o - x.n;
    }
  }

  /** eb_prevc. */
  method PrevChar(b: PagedBuffer, prev: seq<byte> -> Glyph, offset: nat) returns (g: Glyph)
    requires b.Valid() && 0 < offset <= |b.Text()|
    modifies b`curPage, b`curOffset
    ensures b.Valid() && g == Prev(prev, b.Text()[..offset])
  {
    hide Flat, PageOk;
    var size := Min(offset, LOOKAHEAD);
    var s := b.Read(offset - size, size);
    ghost var before := b.Text()[..offset];
    assert s == if |before| > LOOKAHEAD then before[|before| - LOOKAHEAD..] else before;
    g := prev(s);
    g := if 1 <= g.n <= offset then g else g.(n := 1);
  }

  /** eb_nextc. */
  method NextChar(b: PagedBuffer, r: Ruler, offset: nat) returns (g: Glyph)
    requires b.Valid() && RulerOk(r) && offset < |b.Text()|
    modifies b`curPage, b`curOffset
    ensures b.Valid() && g == Next(r, b.Text()[offset..])
  {
    hide Flat, PageOk, BlanksAlone, EndsAtBlank, Next;
    var s := b.Read(offset, LOOKAHEAD);
    ghost var rest := b.Text()[offset..];
    assert s == if |rest| > LOOKAHEAD then rest[..LOOKAHEAD] else rest;
    g := Next(r, s);
  }

  /** From the start of the line on the text looks as before, offset is between
      two characters, and col is its column. */
  ghost predicate Going(r: Ruler, t0: seq<byte>, t: seq<byte>, bol: nat, offset: nat, col: nat)
    requires r.tw > 0
  {
    && bol <= offset <= |t| && bol <= |t0| && t[..bol] == t0[..bol]
    && Expand(r, 0, t[bol..]) == Expand(r, 0, t0[bol..])
    && Between(r, t[bol..], offset - bol) && col == ColAt(r, 0, t[bol..], offset - bol)
  }

  lemma GoNext(r: Ruler, t0: seq<byte>, t: seq<byte>, bol: nat, offset: nat, col: nat)
    requires r.tw > 0 && Going(r, t0, t, bol, offset, col) && offset < |t|
    ensures var g := Next(r, t[offset..]);
      Going(r, t0, t, bol, offset + g.n, After(r, col, g.c))
  {
    hide Expand, Next, After, ColAt, Between;
    BetweenNext(r, 0, t[bol..], offset - bol);
    assert t[bol..][offset - bol..] == t[offset..];
  }

  lemma LayoutKept(r: Ruler, u: seq<byte>, p: seq<byte>, q: seq<byte>)
    requires RulerOk(r) && Between(r, u + p, |u|) && StartsBlank(r, p) && StartsBlank(r, q)
    requires var col := ColAt(r, 0, u + p, |u|);
      Expand(r, col, p) == Expand(r, col, q)
    ensures Between(r, u + q, |u|) && ColAt(r, 0, u + q, |u|) == ColAt(r, 0, u + p, |u|)
    ensures Expand(r, 0, u + q) == Expand(r, 0, u + p)
  {
    hide Expand, BlanksAlone, LooksAhead, EndsAtBlank, Next, ColAt, Between, Head;
    SameBefore(r, 0, u, p, q);
    ExpandCut(r, 0, u + p, |u|);
    ExpandCut(r, 0, u + q, |u|);
    assert (u + p)[|u|..] == p;
    assert (u + q)[|u|..] == q;
  }

  /** Replacing what follows by something that starts with a blank and looks
      the same from there on. */
  lemma GoReplaced(r: Ruler, t0: seq<byte>, t: seq<byte>, bol: nat, offset: nat, col: nat, q: seq<byte>)
    requires RulerOk(r) && Going(r, t0, t, bol, offset, col) && StartsBlank(r, t[offset..]) && StartsBlank(r, q)
    requires Expand(r, col, t[offset..]) == Expand(r, col, q)
    ensures Going(r, t0, t[..offset] + q, bol, offset, col)
  {
    hide Expand, BlanksAlone, LooksAhead, EndsAtBlank, Next, ColAt, Between;
    var u, v := t[bol..offset], t[..offset] + q;
    assert t[bol..] == u + t[offset..];
    assert v[bol..] == u + q && v[..bol] == t[..bol];
    LayoutKept(r, u, t[offset..], q);
  }

  lemma {:induction false} GoSpaces(r: Ruler, t0: seq<byte>, t: seq<byte>, bol: nat, offset: nat, col: nat, n: nat)
    requires RulerOk(r) && Going(r, t0, t, bol, offset, col) && offset + n <= |t| && t[offset..offset + n] == Spaces(n)
    ensures Going(r, t0, t, bol, offset + n, col + n)
    decreases n
  {
    hide Going, BlanksAlone, LooksAhead, EndsAtBlank, Next, ToStop;
    if n > 0 {
      var x := t[offset..offset + n];
      assert x[0] == t[offset] && x[1..] == t[offset + 1..offset + n] && x[1..] == Spaces(n - 1);
      AloneAt(r, t[offset..]);
      GoNext(r, t0, t, bol, offset, col);
      GoSpaces(r, t0, t, bol, offset + 1, col + 1, n - 1);
    }
  }

  /** Passing over blanks. */
  lemma GoBlanks(r: Ruler, t0: seq<byte>, t: seq<byte>, bol: nat, offset: nat, col: nat, k: nat, n: nat)
    requires r.tw > 0 && Going(r, t0, t, bol, offset, col) && BlankRun(r, col, t[offset..], k, n)
    ensures Going(r, t0, t, bol, offset + k, col + n)
  {
    hide Expand, Next;
    assert t[bol..][offset - bol..] == t[offset..];
    BetweenTwice(r, 0, t[bol..], offset - bol, k);
  }

  lemma {:induction false} BetweenTwice(r: Ruler, col: nat, s: seq<byte>, i: nat, k: nat)
    requires r.tw > 0 && i <= |s| && Between(r, s, i) && Between(r, s[i..], k)
    ensures Between(r, s, i + k) && ColAt(r, col, s, i + k) == ColAt(r, ColAt(r, col, s, i), s[i..], k)
    decreases |s|
  {
    if i == 0 {
      assert s[0..] == s;
    } else {
      var g := Next(r, s);
      assert s[g.n..][i - g.n..] == s[i..];
      BetweenTwice(r, After(r, col, g.c), s[g.n..], i - g.n, k);
    }
  }

  // Edits of the commands, with their log

  /** Some logged edits lead from one state to the other. */
  ghost predicate EditRun(m: Model, k: Model) {
    exists es: seq<Edit> :: CanEditAll(m, es) && EditedAll(m, es) == k
  }

  /** And the first of them deletes, so that it grows no record. */
  ghost predicate CleanRun(m: Model, k: Model) {
    exists es: seq<Edit> :: CanEditAll(m, es) && EditedAll(m, es) == k && (es == [] || es[0].op == OpDelete)
  }

  lemma NoRun(m: Model)
    requires Ok(m) && Loggable(m)
    ensures EditRun(m, m) && CleanRun(m, m)
  {
    NoEdits(m);
  }

  lemma RunMore(m: Model, k: Model, e: Edit)
    requires EditRun(m, k) && CanEdit(k, e)
    ensures EditRun(m, Edited1(k, e))
  {
    hide CanEditAll, EditedAll, CanEdit, Edited1, Ok;
    var es :| CanEditAll(m, es) && EditedAll(m, es) == k;
    OneEdit(k, e);
    EditsAppend(m, es, [e]);
  }

  lemma DeleteThen(m: Model, e: Edit, k: Model)
    requires CanEdit(m, e) && e.op == OpDelete && EditRun(Edited1(m, e), k)
    ensures CleanRun(m, k)
  {
    hide CanEditAll, EditedAll, CanEdit, Edited1, Ok;
    OneEdit(m, e);
    var es :| CanEditAll(Edited1(m, e), es) && EditedAll(Edited1(m, e), es) == k;
    EditsAppend(m, [e], es);
    assert ([e] + es)[0] == e;
  }

  lemma CleanThen(m: Model, k: Model, j: Model)
    requires CleanRun(m, k) && CleanRun(k, j)
    ensures CleanRun(m, j)
  {
    hide CanEditAll, EditedAll, Ok;
    var es: seq<Edit> :| CanEditAll(m, es) && EditedAll(m, es) == k && (es == [] || es[0].op == OpDelete);
    var fs: seq<Edit> :| CanEditAll(k, fs) && EditedAll(k, fs) == j && (fs == [] || fs[0].op == OpDelete);
    EditsAppend(m, es, fs);
    if es == [] { assert es + fs == fs; } else { assert (es + fs)[0] == es[0]; }
  }

  /** eb_insert_spaces, by chunks. */
  method InsertSpaces(e: EditBuffer, offset: nat, count: nat) returns (size: nat)
    requires e.Valid() && Loggable(e.State()) && !e.readOnly && offset <= |e.text.Text()| && |e.text.Text()| + count < TWO31
    modifies e`modified, e`cursor, e`history, e.log, e.log.buf, e.watch`points, e.watch`origin, e.watch`cells, e.watch.styles, e.text
    ensures e.Valid() && Loggable(e.State()) && EditRun(old(e.State()), e.State())
    ensures size == count && e.text.Text() == Inserted(old(e.text.Text()), offset, Spaces(count))
  {
    hide Flat, PageOk, Inserted, InsertAnywhere, SideTables.Survives, SideTables.Watchers.Valid, UndoLogs.UndoLog.Valid, UndoLogs.UndoLog.At, Ok, CanEdit, Edited1, EditRun;
    ghost var t, m := e.text.Text(), e.State();
    var n, pos := count, 0;
    size := 0;
    InsertNothing(t, offset);
    NoRun(m);
    assert Spaces(0) == [];
    while n > 0
      invariant e.Valid() && Loggable(e.State()) && EditRun(m, e.State())
      invariant 0 <= n && 0 <= pos && size + pos + n == count && (n == 0 ==> pos == 0)
      invariant e.text.Text() == Inserted(t, offset, Spaces(size))
      decreases n
    {
      n := n - 1;
      pos := pos + 1;
      if pos > 1024 - 6 || n == 0 {
        ghost var now := e.State();
        InsertTwice(t, offset, Spaces(size), Spaces(pos));
        assert Spaces(size) + Spaces(pos) == Spaces(size + pos);
        InsertedSize(t, offset, Spaces(size));
        InsertClip(e.text.Text(), offset + size, Spaces(pos));
        var k := e.Insert(offset + size, Spaces(pos));
        RunMore(m, now, Edit(OpInsert, offset + size, pos, Spaces(pos)));
        size := size + k;
        pos := 0;
      }
    }
  }

  lemma InsertedSize(t: seq<byte>, o: nat, d: seq<byte>)
    requires o <= |t|
    ensures |Inserted(t, o, d)| == |t| + |d|
  {
  }

  /** Replace n bytes of the text, as both commands do. */
  lemma Replaced(t: seq<byte>, o: nat, n: nat, y: seq<byte>)
    requires o + n <= |t|
    ensures Inserted(DeleteAnywhere(t, o, n), o, y) == t[..o] + (y + t[o + n..])
    ensures |DeleteAnywhere(t, o, n)| == |t| - n && DeleteAnywhere(t, o, n) == t[..o] + t[o + n..]
  {
    var u := DeleteAnywhere(t, o, n);
    assert u == t[..o] + t[o + n..];
    assert u[..o] == t[..o] && u[o..] == t[o + n..];
  }

  /** Delete a run of n bytes and put m spaces there. */
  method TabsToSpaces(e: EditBuffer, offset: nat, n: nat, m: nat) returns (delta: int)
    requires e.Valid() && Loggable(e.State()) && !e.readOnly && 0 < n && offset + n <= |e.text.Text()| && |e.text.Text()| - n + m < TWO31
    modifies e`modified, e`cursor, e`history, e.log, e.log.buf, e.watch`points, e.watch`origin, e.watch`cells, e.watch.styles, e.text
    ensures e.Valid() && Loggable(e.State()) && CleanRun(old(e.State()), e.State()) && delta == m - n
    ensures e.text.Text() == old(e.text.Text())[..offset] + (Spaces(m) + old(e.text.Text())[offset + n..])
  {
    hide Flat, PageOk, Inserted, DeleteAnywhere, SideTables.Survives, SideTables.Watchers.Valid, UndoLogs.UndoLog.Valid, UndoLogs.UndoLog.At, Ok, CanEdit, Edited1, EditRun;
    ghost var t, before := e.text.Text(), e.State();
    Replaced(t, offset, n, Spaces(m));
    var gone: int := e.Delete(offset, n);
    var come: int := InsertSpaces(e, offset, m);
    DeleteThen(before, Edit(OpDelete, offset, n, []), e.State());
    delta := come - gone;
  }

  /** The tabs from offset on, also past the end of the region, and the column
      behind them. */
  method SkipTabs(b: PagedBuffer, r: Ruler, offset: nat, size: nat, col0: nat) returns (offset1: nat, col: nat)
    requires b.Valid() && RulerOk(r) && offset < |b.Text()| && Next(r, b.Text()[offset..]) == Glyph(TAB, size)
    modifies b`curPage, b`curOffset
    ensures b.Valid() && offset < offset1 <= |b.Text()| && col > col0 && BlankRun(r, col0, b.Text()[offset..], offset1 - offset, col - col0)
    ensures col - col0 <= r.tw * (offset1 - offset)
  {
    hide Flat, PageOk, BlankRun, BlanksAlone, LooksAhead, EndsAtBlank, Next;
    ghost var g, t := b.G(), b.Text();
    FlatSize(g, b.pages);
    ghost var s := t[offset..];
    col := col0 + (r.tw - col0 % r.tw);
    offset1 := offset + size;
    NoBlank(r, col0, s);
    assert s[0..] == s;
    NextBlank(r, col0, s, 0, 0);
    NextStop(r.tw, col0, ToStop(r, col0));
    Wider(r.tw, 0, size, 0, col - col0);
    while offset1 < b.totalSize
      invariant b.Valid() && b.G() == g && b.Text() == t && offset < offset1 <= |t| && col > col0 && col % r.tw == 0
      invariant BlankRun(r, col0, s, offset1 - offset, col - col0) && col - col0 <= r.tw * (offset1 - offset)
      decreases |t| - offset1
    {
      var x := NextChar(b, r, offset1);
      if x.c != TAB { break; }
      Wider(r.tw, offset1 - offset, x.n, col - col0, r.tw);
      assert s[offset1 - offset..] == t[offset1..];
      NextBlank(r, col0, s, offset1 - offset, col - col0);
      NextStop(r.tw, col, r.tw);
      col := col + r.tw;
      offset1 := offset1 + x.n;
    }
  }

  lemma Wider(tw: nat, d: nat, n: nat, w: int, more: int)
    requires w <= tw * d && n >= 1 && more <= tw
    ensures w + more <= tw * (d + n)
  {
    assert tw * (d + n) == tw * d + tw + tw * (n - 1);
    assert tw * (n - 1) >= 0;
  }

  /** The size of a text of n bytes when every byte from o on becomes tw. */
  function Worst(tw: int, n: int, o: int): int {
    n + (tw - 1) * (n - o)
  }

  lemma WorstLater(tw: int, n: int, o: int, later: int)
    requires tw > 0 && o <= later <= n
    ensures n <= Worst(tw, n, later) <= Worst(tw, n, o)
  {
    assert (tw - 1) * (n - later) >= 0;
    assert (tw - 1) * (n - o) == (tw - 1) * (n - later) + (tw - 1) * (later - o);
    assert (tw - 1) * (later - o) >= 0;
  }

  lemma WorstReplaced(tw: int, n: int, o: int, k: int, m: int)
    requires m <= tw * k
    ensures Worst(tw, n - k + m, o + m) <= Worst(tw, n, o)
  {
    assert (tw - 1) * (n - o - k) == (tw - 1) * (n - o) - (tw - 1) * k;
    assert (tw - 1) * k == tw * k - k;
  }

  /** The texts are the same from e on, counted from the end. */
  predicate SameTail(t0: seq<byte>, t: seq<byte>, e: int) {
    0 <= e <= |t| && 0 <= e + |t0| - |t| && t[e..] == t0[e + |t0| - |t|..]
  }

  function Max(a: int, b: int): int {
    if a < b then b else a
  }

  lemma LaterTail(t0: seq<byte>, t: seq<byte>, e: int, d: int)
    requires SameTail(t0, t, e) && e <= d <= |t|
    ensures SameTail(t0, t, d)
  {
    assert t[d..] == t[e..][d - e..];
  }

  /** Bytes changed in front of the common tail. */
  lemma TailShifted(t0: seq<byte>, t: seq<byte>, e: int, o: nat, k: nat, y: seq<byte>)
    requires SameTail(t0, t, e) && o + k <= e
    ensures SameTail(t0, t[..o] + (y + t[o + k..]), e - k + |y|)
  {
    var u := t[..o] + (y + t[o + k..]);
    assert u[e - k + |y|..] == t[e..];
  }

  /** The state of the loop of do_untabify. */
  ghost predicate Untabbing(r: Ruler, t0: seq<byte>, t: seq<byte>, bol: nat, offset: nat, col: nat, start: nat, stop: int, stop0: int)
    requires r.tw > 0
  {
    && Going(r, t0, t, bol, offset, col) && bol <= start <= |t0| && start <= |t| && stop <= |t| && |t| - stop == |t0| - stop0
    && t[..start] == t0[..start] && SameTail(t0, t, Max(stop, offset)) && NoTabs(r, t[bol..], start - bol, offset - bol)
    && forall i :: start <= i < offset ==> t[i] != TAB
  }

  lemma NoTabsNext(r: Ruler, t0: seq<byte>, t: seq<byte>, bol: nat, offset: nat, col: nat, start: nat)
    requires r.tw > 0 && Going(r, t0, t, bol, offset, col) && offset < |t| && NoTabs(r, t[bol..], start - bol, offset - bol)
    requires Next(r, t[offset..]).c == TAB ==> offset < start
    ensures NoTabs(r, t[bol..], start - bol, offset + Next(r, t[offset..]).n - bol)
  {
    hide Expand, Next, Between;
    var s, k, n := t[bol..], offset - bol, Next(r, t[offset..]).n;
    assert s[k..] == t[offset..];
    assert NoTabs(r, s[k..], start - offset, n);
    NoTabsThen(r, s, start - bol, k, n);
  }

  lemma NoTabsReplaced(r: Ruler, t0: seq<byte>, t: seq<byte>, bol: nat, offset: nat, col: nat, start: nat, k: nat, m: nat)
    requires RulerOk(r) && Going(r, t0, t, bol, offset, col) && NoTabs(r, t[bol..], start - bol, offset - bol)
    requires 0 < k && 0 < m && BlankRun(r, col, t[offset..], k, m)
    ensures offset + k <= |t| && NoTabs(r, (t[..offset] + (Spaces(m) + t[offset + k..]))[bol..], start - bol, offset + m - bol)
  {
    hide Expand, BlanksAlone, LooksAhead, EndsAtBlank, Next, Between, NoTabs, ColAt;
    assert k <= |t[offset..]|;
    var u, rest := t[bol..offset], t[offset + k..];
    var q := Spaces(m) + rest;
    assert t[bol..] == u + t[offset..] && (t[..offset] + q)[bol..] == u + q;
    AloneAt(r, q);
    SameBefore(r, 0, u, t[offset..], q);
    NoTabsKept(r, u, t[offset..], q, start - bol);
    NoTabsInSpaces(r, m, rest, start - bol - |u|);
    assert (u + q)[|u|..] == q;
    NoTabsThen(r, u + q, start - bol, |u|, m);
  }

  lemma UntabNext(r: Ruler, t0: seq<byte>, t: seq<byte>, bol: nat, offset: nat, col: nat, start: nat, stop: int, stop0: int)
    requires RulerOk(r) && Untabbing(r, t0, t, bol, offset, col, start, stop, stop0) && offset < |t|
    requires Next(r, t[offset..]).c == TAB ==> offset < start
    ensures var g := Next(r, t[offset..]);
      Untabbing(r, t0, t, bol, offset + g.n, After(r, col, g.c), start, stop, stop0)
  {
    hide Going, After, SameTail, BlanksAlone, LooksAhead, EndsAtBlank, Next, NoTabs;
    GoNext(r, t0, t, bol, offset, col);
    NoTabsNext(r, t0, t, bol, offset, col, start);
    var g := Next(r, t[offset..]);
    GoIn(r, t0, t, bol, offset, col);
    LaterTail(t0, t, Max(stop, offset), Max(stop, offset + g.n));
    if offset >= start { NoTabBytes(r, t, offset); }
    InnerBytes(r, t, offset);
  }

  lemma NoTabBytes(r: Ruler, t: seq<byte>, offset: nat)
    requires RulerOk(r) && offset < |t| && Next(r, t[offset..]).c != TAB
    ensures t[offset] != TAB
  {
    hide LooksAhead, EndsAtBlank, Next;
    AloneAt(r, t[offset..]);
  }

  lemma InnerBytes(r: Ruler, t: seq<byte>, offset: nat)
    requires RulerOk(r) && offset < |t|
    ensures forall i :: offset < i < offset + Next(r, t[offset..]).n ==> t[i] != TAB
  {
    hide LooksAhead, EndsAtBlank, BlanksAlone, Next;
    var s := t[offset..];
    AloneAt(r, s);
    forall i | offset < i < offset + Next(r, s).n ensures t[i] != TAB { assert t[i] == s[i - offset]; }
  }

  lemma GoIn(r: Ruler, t0: seq<byte>, t: seq<byte>, bol: nat, offset: nat, col: nat)
    requires r.tw > 0 && Going(r, t0, t, bol, offset, col)
    ensures bol <= offset <= |t|
  {
  }

  /** Blanks that look like m spaces become m spaces. */
  lemma BlanksToSpaces(r: Ruler, t0: seq<byte>, t: seq<byte>, bol: nat, offset: nat, col: nat, k: nat, m: nat)
    requires RulerOk(r) && Going(r, t0, t, bol, offset, col) && 0 < k && 0 < m && BlankRun(r, col, t[offset..], k, m)
    ensures offset + k <= |t| && Going(r, t0, t[..offset] + (Spaces(m) + t[offset + k..]), bol, offset + m, col + m)
  {
    hide Going, BlanksAlone, LooksAhead, EndsAtBlank, Next, Expand;
    GoIn(r, t0, t, bol, offset, col);
    assert k <= |t[offset..]|;
    var q := Spaces(m) + t[offset + k..];
    assert t[offset..][k..] == t[offset + k..];
    AloneAt(r, q);
    SpacesExpand(r, col, m, t[offset + k..]);
    GoReplaced(r, t0, t, bol, offset, col, q);
    var u := t[..offset] + q;
    assert u[offset..offset + m] == Spaces(m);
    GoSpaces(r, t0, u, bol, offset, col, m);
  }

  lemma UntabReplaced(r: Ruler, t0: seq<byte>, t: seq<byte>, bol: nat, offset: nat, col: nat, start: nat, stop: int, stop0: int, k: nat, m: nat)
    requires RulerOk(r) && Untabbing(r, t0, t, bol, offset, col, start, stop, stop0) && start <= offset < stop && 0 < k && 0 < m
    requires BlankRun(r, col, t[offset..], k, m)
    ensures offset + k <= |t|
    ensures Untabbing(r, t0, t[..offset] + (Spaces(m) + t[offset + k..]), bol, offset + m, col + m, start, stop + m - k, stop0)
  {
    hide Going, BlankRun, SameTail, BlanksAlone, LooksAhead, EndsAtBlank, Next, NoTabs;
    NoTabsReplaced(r, t0, t, bol, offset, col, start, k, m);
    BlanksToSpaces(r, t0, t, bol, offset, col, k, m);
    LaterTail(t0, t, Max(stop, offset), Max(stop, offset + k));
    TailShifted(t0, t, Max(stop, offset + k), offset, k, Spaces(m));
    var u := t[..offset] + (Spaces(m) + t[offset + k..]);
    assert u[..start] == t[..start];
    forall i | start <= i < offset + m ensures u[i] != TAB {
      if i >= offset { assert u[i] == Spaces(m)[i - offset]; }
    }
  }

  /** The tabs at offset become spaces. */
  method UntabifyRun(e: EditBuffer, r: Ruler, offset: nat, size: nat, col: nat, end: int, ghost start: nat, ghost bol: nat, ghost t0: seq<byte>, ghost stop0: int)
      returns (offset1: nat, col1: nat, stop: int)
    requires e.Valid() && Loggable(e.State()) && !e.readOnly && RulerOk(r) && start <= offset < end && offset < |e.text.Text()|
    requires Untabbing(r, t0, e.text.Text(), bol, offset, col, start, end, stop0) && Next(r, e.text.Text()[offset..]) == Glyph(TAB, size)
    requires Worst(r.tw, |e.text.Text()|, offset) < TWO31
    modifies e`modified, e`cursor, e`history, e.log, e.log.buf, e.watch`points, e.watch`origin, e.watch`cells, e.watch.styles, e.text
    ensures e.Valid() && Loggable(e.State()) && CleanRun(old(e.State()), e.State()) && start <= offset1 && stop - offset1 < end - offset
    ensures Untabbing(r, t0, e.text.Text(), bol, offset1, col1, start, stop, stop0) && Worst(r.tw, |e.text.Text()|, offset1) < TWO31
  {
    hide Flat, PageOk, Untabbing, BlankRun, BlanksAlone, LooksAhead, EndsAtBlank, Next, SideTables.Survives, SideTables.Watchers.Valid, UndoLogs.UndoLog.Valid, UndoLogs.UndoLog.At, Ok, CleanRun, Worst;
    ghost var t := e.text.Text();
    offset1, col1 := SkipTabs(e.text, r, offset, size, col);
    ghost var k, m := offset1 - offset, col1 - col;
    UntabReplaced(r, t0, t, bol, offset, col, start, end, stop0, k, m);
    WorstReplaced(r.tw, |t|, offset, k, m);
    WorstLater(r.tw, |t| - k + m, offset + m, offset + m);
    var delta := TabsToSpaces(e, offset, offset1 - offset, col1 - col);
    offset1 := offset1 + delta;
    stop := end + delta;
  }

  /** The loop of do_untabify. */
  method UntabifyFrom(e: EditBuffer, r: Ruler, bol: nat, start: nat, end: nat) returns (offset: nat, col: nat, stop: int)
    requires e.Valid() && Loggable(e.State()) && !e.readOnly && RulerOk(r) && bol <= start <= end <= |e.text.Text()|
    requires Worst(r.tw, |e.text.Text()|, start) < TWO31
    modifies e`modified, e`cursor, e`history, e.log, e.log.buf, e.watch`points, e.watch`origin, e.watch`cells, e.watch.styles, e.text
    ensures e.Valid() && Loggable(e.State()) && CleanRun(old(e.State()), e.State()) && stop <= offset
    ensures Untabbing(r, old(e.text.Text()), e.text.Text(), bol, offset, col, start, stop, end)
  {
    hide Flat, PageOk, Untabbing, After, BlanksAlone, LooksAhead, EndsAtBlank, Next, SideTables.Survives, SideTables.Watchers.Valid, UndoLogs.UndoLog.Valid, UndoLogs.UndoLog.At, Ok, CleanRun, Worst;
    ghost var t0, m0 := e.text.Text(), e.State();
    NoRun(m0);
    col, offset, stop := 0, bol, end;
    UntabStart(r, t0, bol, start, stop);
    while offset < stop
      invariant e.Valid() && Loggable(e.State()) && CleanRun(m0, e.State())
      invariant Untabbing(r, t0, e.text.Text(), bol, offset, col, start, stop, end)
      invariant Worst(r.tw, |e.text.Text()|, Max(start, offset)) < TWO31
      decreases stop - offset
    {
      ghost var t, now := e.text.Text(), e.State();
      UntabOffset(r, t0, t, bol, offset, col, start, stop, end);
      var g := NextChar(e.text, r, offset);
      if g.c != TAB || offset < start {
        UntabNext(r, t0, t, bol, offset, col, start, stop, end);
        WorstLater(r.tw, |t|, Max(start, offset), Max(start, offset + g.n));
        col := NextCol(r, col, g.c);
        offset := offset + g.n;
      } else {
        offset, col, stop := UntabifyRun(e, r, offset, g.n, col, stop, start, bol, t0, end);
        CleanThen(m0, now, e.State());
      }
    }
  }

  lemma UntabOffset(r: Ruler, t0: seq<byte>, t: seq<byte>, bol: nat, offset: nat, col: nat, start: nat, stop: int, stop0: int)
    requires r.tw > 0 && Untabbing(r, t0, t, bol, offset, col, start, stop, stop0)
    ensures offset <= |t| && start <= |t| && stop <= |t|
  {
    hide Expand, ColAt, Between;
  }

  /** The characters that begin in start..stop, read from bol on, are no tabs. */
  ghost predicate TabFree(r: Ruler, t: seq<byte>, bol: nat, start: nat, stop: int)
    requires r.tw > 0 && bol <= |t|
  {
    forall p: nat :: bol <= p < |t| && start <= p < stop && Between(r, t[bol..], p - bol) ==> Next(r, t[p..]).c != TAB
  }

  lemma TabFreeTo(r: Ruler, t: seq<byte>, bol: nat, start: nat, offset: nat, stop: int)
    requires r.tw > 0 && bol <= |t| && NoTabs(r, t[bol..], start - bol, offset - bol) && stop <= offset
    ensures TabFree(r, t, bol, start, stop)
  {
    hide Next, NoTabs, Between;
    forall p: nat | bol <= p < |t| && start <= p < stop && Between(r, t[bol..], p - bol) ensures Next(r, t[p..]).c != TAB {
      NoTabsAt(r, t[bol..], start - bol, offset - bol, p - bol);
      assert t[bol..][p - bol..] == t[p..];
    }
  }

  /** do_untabify. From the start of the line of the region on, the layout of the
      text stays, and no character of the region is a tab any more, nor is any
      byte of it. The region ends at stop after its length has changed; a run of
      tabs across its end is converted as a whole, up to past. A region behind
      the end of the text changes nothing: every character that the loop passes
      over is before its start. */
  method Untabify(e: EditBuffer, tabWidth: int, width: int -> nat, dec: seq<byte> -> Glyph, prev: seq<byte> -> Glyph, p1: int, p2: int)
      returns (bol: nat, start: nat, stop: int, past: int)
    requires e.Valid() && Loggable(e.State()) && !e.readOnly && RulerOk(Ruler(TabWidth(tabWidth), width, dec))
    requires Worst(TabWidth(tabWidth), |e.text.Text()|, Max(0, Min(p1, p2))) < TWO31
    modifies e`modified, e`cursor, e`history, e.log, e.log.buf, e.watch`points, e.watch`origin, e.watch`cells, e.watch.styles, e.text
    ensures e.Valid() && Loggable(e.State()) && CleanRun(old(e.State()), e.State())
    ensures start == (if Min(p1, p2) > 0 then Min(p1, p2) else 0) && bol <= start && stop <= |e.text.Text()|
    ensures var stop0 := Min(|old(e.text.Text())|, if p1 < p2 then p2 else p1);
      if start > |old(e.text.Text())| || stop0 < start then e.text.Text() == old(e.text.Text()) && e.State() == old(e.State())
      else start <= |e.text.Text()| && |e.text.Text()| - stop == |old(e.text.Text())| - stop0 && stop <= past && SameTail(old(e.text.Text()), e.text.Text(), past)
    ensures start <= |old(e.text.Text())| ==>
      var r := Ruler(TabWidth(tabWidth), width, dec);
      && e.text.Text()[..start] == old(e.text.Text())[..start]
      && (bol == 0 || Prev(prev, old(e.text.Text())[..bol]).c == LF) && NoLineEnd(prev, old(e.text.Text()), bol, start)
      && Expand(r, 0, e.text.Text()[bol..]) == Expand(r, 0, old(e.text.Text())[bol..])
      && TabFree(r, e.text.Text(), bol, start, stop) && forall i :: start <= i < stop ==> e.text.Text()[i] != TAB
  {
    hide Flat, PageOk, Expand, Untabbing, SameTail, After, BlankRun, BlanksAlone, LooksAhead, EndsAtBlank, Next, NoTabs, NoLineEnd, Between, SideTables.Survives, SideTables.Watchers.Valid, UndoLogs.UndoLog.Valid, UndoLogs.UndoLog.At, Ok, CleanRun, Worst;
    ghost var t0, m0 := e.text.Text(), e.State();
    var r := Ruler(TabWidth(tabWidth), width, dec);
    FlatSize(e.text.G(), e.text.pages);
    NoRun(m0);
    start := if Min(p1, p2) > 0 then Min(p1, p2) else 0;
    stop := Min(e.text.totalSize, if p1 < p2 then p2 else p1);
    past, bol := stop, 0;
    if start > e.text.totalSize { return; }
    bol := GotoBol(e.text, prev, start);
    if stop < start { return; }
    ghost var stop0 := stop;
    var offset, col;
    offset, col, stop := UntabifyFrom(e, r, bol, start, stop);
    UntabIn(r, t0, e.text.Text(), bol, offset, col, start, stop, stop0);
    TabFreeTo(r, e.text.Text(), bol, start, offset, stop);
    past := Max(stop, offset);
  }

  /** The column behind a character. */
  method NextCol(r: Ruler, col: nat, c: int) returns (next: nat)
    requires r.tw > 0
    ensures next == After(r, col, c) && (c == SPACE as int ==> next == col + r.width(c))
  {
    if c == CR || c == LF {
      next := 0;
    } else if c == TAB {
      next := col + (r.tw - col % r.tw);
    } else {
      next := col + r.width(c);
    }
  }

  lemma UntabStart(r: Ruler, t0: seq<byte>, bol: nat, start: nat, stop: int)
    requires r.tw > 0 && bol <= start <= stop <= |t0|
    ensures Untabbing(r, t0, t0, bol, bol, 0, start, stop, stop)
  {
    hide Expand;
  }

  lemma UntabIn(r: Ruler, t0: seq<byte>, t: seq<byte>, bol: nat, offset: nat, col: nat, start: nat, stop: int, stop0: int)
    requires r.tw > 0 && Untabbing(r, t0, t, bol, offset, col, start, stop, stop0)
    ensures offset <= |t| && bol <= start <= |t0| && start <= |t| && stop <= |t| && |t| - stop == |t0| - stop0 && t[..start] == t0[..start]
    ensures Expand(r, 0, t[bol..]) == Expand(r, 0, t0[bol..]) && SameTail(t0, t, Max(stop, offset))
    ensures NoTabs(r, t[bol..], start - bol, offset - bol) && forall i :: start <= i < offset ==> t[i] != TAB
  {
    hide Expand, ColAt, Between;
  }

  /** The state of the loop of do_tabify: the text before the region stays as it
      was, and the text behind it, but for a character across its end. */
  ghost predicate Tabbing(r: Ruler, t0: seq<byte>, t: seq<byte>, bol: nat, offset: nat, col: nat, start: nat, stop: int, stop0: int)
    requires r.tw > 0
  {
    && Going(r, t0, t, bol, offset, col) && bol <= start <= |t0| && start <= |t| && stop <= |t| && |t| - stop == |t0| - stop0
    && t[..start] == t0[..start] && offset < stop + LOOKAHEAD && SameTail(t0, t, Max(stop, offset))
  }

  lemma ShortGlyph(r: Ruler, s: seq<byte>)
    requires RulerOk(r) && s != []
    ensures Next(r, s).n <= LOOKAHEAD
  {
    hide Next, BlanksAlone, EndsAtBlank;
  }

  lemma TabNext(r: Ruler, t0: seq<byte>, t: seq<byte>, bol: nat, offset: nat, col: nat, start: nat, stop: int, stop0: int)
    requires RulerOk(r) && Tabbing(r, t0, t, bol, offset, col, start, stop, stop0) && offset < stop
    ensures offset < |t|
    ensures var g := Next(r, t[offset..]);
      Tabbing(r, t0, t, bol, offset + g.n, After(r, col, g.c), start, stop, stop0)
  {
    hide Going, After, SameTail, BlanksAlone, LooksAhead, EndsAtBlank, Next;
    GoNext(r, t0, t, bol, offset, col);
    ShortGlyph(r, t[offset..]);
    LaterTail(t0, t, Max(stop, offset), Max(stop, offset + Next(r, t[offset..]).n));
  }

  /** Spaces from offset to offset1, none of them the last before a stop. */
  ghost predicate SpaceRun(r: Ruler, t: seq<byte>, offset: nat, offset1: nat, col: nat, col1: nat)
    requires r.tw > 0
  {
    && offset < offset1 <= |t| && col < col1 && col1 - col < ToStop(r, col)
    && BlankRun(r, col, t[offset..], offset1 - offset, col1 - col)
  }

  /** How a run of spaces ends: with one that reaches a stop, before a tab, or
      before anything else. */
  datatype RunEnd = AtStop | AtTab(size: nat) | AtOther

  /** The inner loop of do_tabify, behind a first space at offset, up to its
      edits. */
  method ScanSpaces(b: PagedBuffer, r: Ruler, offset: nat, first: nat, col: nat, stop: nat) returns (offset1: nat, col1: nat, end: RunEnd, ghost last: nat)
    requires b.Valid() && RulerOk(r) && first <= |b.Text()| && stop <= |b.Text()| && SpaceRun(r, b.Text(), offset, first, col, col + 1)
    requires OnlySpaces(r, b.Text()[offset..], first - offset)
    modifies b`curPage, b`curOffset
    ensures b.Valid() && offset < offset1 <= |b.Text()| && col < col1 && (first < stop + LOOKAHEAD ==> offset1 < stop + LOOKAHEAD)
    ensures end.AtStop? ==> BlankRun(r, col, b.Text()[offset..], offset1 - offset, col1 - col) && col1 - col == ToStop(r, col)
    ensures !end.AtStop? ==> SpaceRun(r, b.Text(), offset, offset1, col, col1) && OnlySpaces(r, b.Text()[offset..], offset1 - offset)
    ensures end.AtTab? ==> offset1 < stop && Next(r, b.Text()[offset1..]) == Glyph(TAB, end.size)
    ensures end.AtOther? && offset1 < stop ==> !Blank(Next(r, b.Text()[offset1..]).c)
    ensures end.AtStop? ==>
      && offset < last < offset1 && last < stop && SpaceRun(r, b.Text(), offset, last, col, col1 - 1) && OnlySpaces(r, b.Text()[offset..], last - offset)
      && Next(r, b.Text()[last..]).c == SPACE && col1 % r.tw == 0
  {
    hide Flat, PageOk, SpaceRun, ToStop, BlankRun, BlanksAlone, LooksAhead, EndsAtBlank, Next, OnlySpaces;
    ghost var g, t := b.G(), b.Text();
    offset1, col1, end, last := first, col + 1, AtOther, first;
    RunIn(r, t, offset, offset1, col, col1);
    while offset1 < stop
      invariant b.Valid() && b.G() == g && b.Text() == t && offset < offset1 <= |t| && end.AtOther? && col < col1
      invariant SpaceRun(r, t, offset, offset1, col, col1) && (first < stop + LOOKAHEAD ==> offset1 < stop + LOOKAHEAD)
      invariant OnlySpaces(r, t[offset..], offset1 - offset)
      decreases |t| - offset1
    {
      var x := NextChar(b, r, offset1);
      if x.c == SPACE {
        OneMore(r, t, offset, offset1, col, col1);
        ShortGlyph(r, t[offset1..]);
        assert t[offset..][offset1 - offset..] == t[offset1..];
        OnlySpacesMore(r, t[offset..], offset1 - offset);
        last := offset1;
        col1 := col1 + 1;
        offset1 := offset1 + x.n;
        if col1 % r.tw == 0 { return offset1, col1, AtStop, last; }
      } else if x.c == TAB {
        return offset1, col1, AtTab(x.n), last;
      } else {
        break;
      }
    }
  }

  lemma RunIn(r: Ruler, t: seq<byte>, offset: nat, offset1: nat, col: nat, col1: nat)
    requires r.tw > 0 && SpaceRun(r, t, offset, offset1, col, col1)
    ensures offset < offset1 <= |t| && col < col1
  {
  }

  /** One more space, up to the stop or not. */
  lemma OneMore(r: Ruler, t: seq<byte>, offset: nat, offset1: nat, col: nat, col1: nat)
    requires RulerOk(r) && SpaceRun(r, t, offset, offset1, col, col1) && offset1 < |t| && Next(r, t[offset1..]).c == SPACE
    ensures var next := offset1 + Next(r, t[offset1..]).n;
      && next <= |t| && BlankRun(r, col, t[offset..], next - offset, col1 + 1 - col)
      && ((col1 + 1) % r.tw == 0 ==> col1 + 1 - col == ToStop(r, col))
      && ((col1 + 1) % r.tw != 0 ==> SpaceRun(r, t, offset, next, col, col1 + 1))
  {
    hide BlankRun, BlanksAlone, LooksAhead, EndsAtBlank, Next;
    var n := col1 - col;
    assert t[offset..][offset1 - offset..] == t[offset1..];
    NextBlank(r, col, t[offset..], offset1 - offset, n);
    if n + 1 < ToStop(r, col) {
      SameStop(r.tw, col, n + 1);
    } else {
      NextStop(r.tw, col, n + 1);
    }
  }

  /** Spaces that reach a stop look like a tab. */
  lemma ReachedStop(r: Ruler, t0: seq<byte>, t: seq<byte>, bol: nat, offset: nat, col: nat, start: nat, stop: int, stop0: int, k: nat)
    requires RulerOk(r) && Tabbing(r, t0, t, bol, offset, col, start, stop, stop0) && start <= offset < offset + k < stop + LOOKAHEAD
    requires BlankRun(r, col, t[offset..], k, ToStop(r, col))
    ensures offset + k <= |t|
    ensures Tabbing(r, t0, t[..offset] + ([TAB] + t[offset + k..]), bol, offset + 1, col + ToStop(r, col), start, stop + 1 - k, stop0)
  {
    hide Going, SameTail, Expand, BlanksAlone, LooksAhead, EndsAtBlank, Next, ToStop;
    GoIn(r, t0, t, bol, offset, col);
    assert k <= |t[offset..]|;
    var q := [TAB] + t[offset + k..];
    assert t[offset..][k..] == t[offset + k..] && q[1..] == t[offset + k..];
    AloneAt(r, q);
    TabExpand(r, col, q);
    GoReplaced(r, t0, t, bol, offset, col, q);
    var u := t[..offset] + q;
    assert u[offset..] == q && u[..start] == t[..start];
    GoNext(r, t0, u, bol, offset, col);
    LaterTail(t0, t, Max(stop, offset), Max(stop, offset + k));
    TailShifted(t0, t, Max(stop, offset + k), offset, k, [TAB]);
  }

  /** A tab behind spaces reaches the same stop without them. */
  lemma ReachedTab(r: Ruler, t0: seq<byte>, t: seq<byte>, bol: nat, offset: nat, col: nat, start: nat, stop: int, stop0: int, offset1: nat, col1: nat, size: nat)
    requires RulerOk(r) && Tabbing(r, t0, t, bol, offset, col, start, stop, stop0) && start <= offset && offset1 < stop
    requires SpaceRun(r, t, offset, offset1, col, col1) && Next(r, t[offset1..]) == Glyph(TAB, size)
    ensures Tabbing(r, t0, t[..offset] + ([] + t[offset1..]), bol, offset + size, col1 + (r.tw - col1 % r.tw), start, stop - (offset1 - offset), stop0)
  {
    hide Going, SameTail, Expand, BlanksAlone, LooksAhead, EndsAtBlank, Next;
    var q, k, n := t[offset1..], offset1 - offset, col1 - col;
    assert t[offset..][k..] == q;
    TabExpand(r, col, q);
    TabExpand(r, col1, q);
    SameStop(r.tw, col, n);
    JoinGap(n, ToStop(r, col1), Expand(r, col1 + ToStop(r, col1), q[size..]));
    GoReplaced(r, t0, t, bol, offset, col, q);
    var u := t[..offset] + q;
    assert [] + q == q && u[offset..] == q && u[..start] == t[..start];
    GoNext(r, t0, u, bol, offset, col);
    ShortGlyph(r, q);
    LaterTail(t0, t, Max(stop, offset), Max(stop, offset1 + size));
    TailShifted(t0, t, Max(stop, offset1 + size), offset, k, []);
  }

  /** Delete a run of n bytes and put a tab there. */
  method SpacesToTab(e: EditBuffer, offset: nat, n: nat) returns (delta: int)
    requires e.Valid() && Loggable(e.State()) && !e.readOnly && 0 < n && offset + n <= |e.text.Text()|
    modifies e`modified, e`cursor, e`history, e.log, e.log.buf, e.watch`points, e.watch`origin, e.watch`cells, e.watch.styles, e.text
    ensures e.Valid() && Loggable(e.State()) && CleanRun(old(e.State()), e.State()) && delta == 1 - n
    ensures e.text.Text() == old(e.text.Text())[..offset] + ([TAB] + old(e.text.Text())[offset + n..])
  {
    hide Flat, PageOk, Inserted, DeleteAnywhere, InsertAnywhere, SideTables.Survives, SideTables.Watchers.Valid, UndoLogs.UndoLog.Valid, UndoLogs.UndoLog.At, Ok, CanEdit, Edited1, EditRun;
    ghost var t, before := e.text.Text(), e.State();
    OkNow(before);
    Replaced(t, offset, n, [TAB]);
    InsertClip(DeleteAnywhere(t, offset, n), offset, [TAB]);
    var gone: int := e.Delete(offset, n);
    ghost var now := e.State();
    NoRun(now);
    var come: int := e.Insert(offset, [TAB]);
    RunMore(now, now, Edit(OpInsert, offset, 1, [TAB]));
    DeleteThen(before, Edit(OpDelete, offset, n, []), e.State());
    delta := come - gone;
  }

  /** The edit at a stop: the spaces become a tab. */
  method EditAtStop(e: EditBuffer, r: Ruler, offset: nat, col: nat, offset1: nat, stop: int, ghost start: nat, ghost bol: nat, ghost t0: seq<byte>, ghost stop0: int)
      returns (offset2: nat, stop2: int)
    requires e.Valid() && Loggable(e.State()) && !e.readOnly && RulerOk(r)
    requires Tabbing(r, t0, e.text.Text(), bol, offset, col, start, stop, stop0) && start <= offset < offset1 < stop + LOOKAHEAD
    requires BlankRun(r, col, e.text.Text()[offset..], offset1 - offset, ToStop(r, col)) && offset1 <= |e.text.Text()|
    modifies e`modified, e`cursor, e`history, e.log, e.log.buf, e.watch`points, e.watch`origin, e.watch`cells, e.watch.styles, e.text
    ensures e.Valid() && Loggable(e.State()) && CleanRun(old(e.State()), e.State()) && offset2 == offset + 1 && stop2 == stop + 1 - (offset1 - offset)
    ensures e.text.Text() == old(e.text.Text())[..offset] + ([TAB] + old(e.text.Text())[offset1..])
    ensures Tabbing(r, t0, e.text.Text(), bol, offset2, col + ToStop(r, col), start, stop2, stop0)
  {
    hide Flat, PageOk, Tabbing, ToStop, BlankRun, BlanksAlone, LooksAhead, EndsAtBlank, Next, SideTables.Survives, SideTables.Watchers.Valid, UndoLogs.UndoLog.Valid, UndoLogs.UndoLog.At, Ok, CleanRun;
    ReachedStop(r, t0, e.text.Text(), bol, offset, col, start, stop, stop0, offset1 - offset);
    var delta := SpacesToTab(e, offset, offset1 - offset);
    offset2 := offset1 + delta;
    stop2 := stop + delta;
  }

  /** Delete a run of n bytes. */
  method CutSpaces(e: EditBuffer, offset: nat, n: nat) returns (gone: nat)
    requires e.Valid() && Loggable(e.State()) && !e.readOnly && 0 < n && offset + n <= |e.text.Text()|
    modifies e`modified, e`cursor, e`history, e.log, e.log.buf, e.watch`points, e.watch`origin, e.watch`cells, e.watch.styles, e.text
    ensures e.Valid() && Loggable(e.State()) && CleanRun(old(e.State()), e.State()) && gone == n
    ensures e.text.Text() == old(e.text.Text())[..offset] + old(e.text.Text())[offset + n..]
  {
    hide Flat, PageOk, DeleteAnywhere, SideTables.Survives, SideTables.Watchers.Valid, UndoLogs.UndoLog.Valid, UndoLogs.UndoLog.At, Ok, CleanRun, CanEdit, Edited1;
    ghost var before := e.State();
    Replaced(e.text.Text(), offset, n, []);
    gone := e.Delete(offset, n);
    NoRun(e.State());
    DeleteThen(before, Edit(OpDelete, offset, n, []), e.State());
  }

  /** The edit before a tab: the spaces go. */
  method EditAtTab(e: EditBuffer, r: Ruler, offset: nat, col: nat, offset1: nat, col1: nat, size: nat, stop: int, ghost start: nat, ghost bol: nat, ghost t0: seq<byte>, ghost stop0: int)
      returns (offset2: nat, col2: nat, stop2: int)
    requires e.Valid() && Loggable(e.State()) && !e.readOnly && RulerOk(r)
    requires Tabbing(r, t0, e.text.Text(), bol, offset, col, start, stop, stop0) && start <= offset < offset1 < stop && offset1 < |e.text.Text()|
    requires SpaceRun(r, e.text.Text(), offset, offset1, col, col1) && Next(r, e.text.Text()[offset1..]) == Glyph(TAB, size)
    modifies e`modified, e`cursor, e`history, e.log, e.log.buf, e.watch`points, e.watch`origin, e.watch`cells, e.watch.styles, e.text
    ensures e.Valid() && Loggable(e.State()) && CleanRun(old(e.State()), e.State()) && offset2 == offset + size && stop2 == stop - (offset1 - offset)
    ensures col2 == col1 + (r.tw - col1 % r.tw) && e.text.Text() == old(e.text.Text())[..offset] + old(e.text.Text())[offset1..]
    ensures Tabbing(r, t0, e.text.Text(), bol, offset2, col2, start, stop2, stop0)
  {
    hide Flat, PageOk, Tabbing, SpaceRun, BlanksAlone, LooksAhead, EndsAtBlank, Next, SideTables.Survives, SideTables.Watchers.Valid, UndoLogs.UndoLog.Valid, UndoLogs.UndoLog.At, Ok, CleanRun;
    ghost var t := e.text.Text();
    ReachedTab(r, t0, t, bol, offset, col, start, stop, stop0, offset1, col1, size);
    assert [] + t[offset1..] == t[offset1..];
    col2 := col1 + (r.tw - col1 % r.tw);
    var gone := CutSpaces(e, offset, offset1 - offset);
    offset2 := offset1 + size - gone;
    stop2 := stop - gone;
  }

  /** The inner loop of do_tabify with its edits. */
  method TabifyRun(e: EditBuffer, r: Ruler, offset: nat, first: nat, col: nat, start: nat, end: nat, ghost bol: nat, ghost t0: seq<byte>, ghost stop0: int)
      returns (offset1: nat, col1: nat, stop: int)
    requires e.Valid() && Loggable(e.State()) && !e.readOnly && RulerOk(r)
    requires Tabbing(r, t0, e.text.Text(), bol, offset, col, start, end, stop0) && start <= offset < end && first < end + LOOKAHEAD
    requires SpaceRun(r, e.text.Text(), offset, first, col, col + 1) && OnlySpaces(r, e.text.Text()[offset..], first - offset)
    requires Tidied(r, t0, e.text.Text(), bol, offset, col, start, end, stop0)
    modifies e`modified, e`cursor, e`history, e.log, e.log.buf, e.watch`points, e.watch`origin, e.watch`cells, e.watch.styles, e.text
    ensures e.Valid() && Loggable(e.State()) && CleanRun(old(e.State()), e.State()) && stop - offset1 < end - offset
    ensures Tabbing(r, t0, e.text.Text(), bol, offset1, col1, start, stop, stop0)
    ensures Tidied(r, t0, e.text.Text(), bol, offset1, col1, start, stop, stop0)
  {
    hide Flat, PageOk, Tabbing, Tidied, SpaceRun, OnlySpaces, ToStop, Expand, BlankRun, BlanksAlone, LooksAhead, EndsAtBlank, Next, SideTables.Survives, SideTables.Watchers.Valid, UndoLogs.UndoLog.Valid, UndoLogs.UndoLog.At, Ok, CleanRun;
    ghost var t := e.text.Text();
    NoRun(e.State());
    TabIn(r, t0, t, bol, offset, col, start, end, stop0);
    RunIn(r, t, offset, first, col, col + 1);
    var how;
    ghost var last;
    offset1, col1, how, last := ScanSpaces(e.text, r, offset, first, col, end);
    stop := end;
    match how
    case AtStop =>
      TidyAtStop(r, t0, t, bol, offset, col, start, end, stop0, last, offset1, col1);
      offset1, stop := EditAtStop(e, r, offset, col, offset1, stop, start, bol, t0, stop0);
    case AtTab(size) =>
      TidyAtTab(r, t0, t, bol, offset, col, start, end, stop0, offset1, col1, size);
      offset1, col1, stop := EditAtTab(e, r, offset, col, offset1, col1, size, stop, start, bol, t0, stop0);
    case AtOther =>
      RunSkipped(r, t0, t, bol, offset, col, start, stop, stop0, offset1, col1);
      TidyAtOther(r, t0, t, bol, offset, col, start, end, stop0, offset1, col1);
  }

  lemma TidyAtStop(r: Ruler, t0: seq<byte>, t: seq<byte>, bol: nat, offset: nat, col: nat, start: nat, stop: int, stop0: int, last: nat, offset1: nat, col1: nat)
    requires RulerOk(r) && Tidied(r, t0, t, bol, offset, col, start, stop, stop0) && start <= offset < last < offset1 <= |t| && last < stop <= |t| && col < col1
    requires SpaceRun(r, t, offset, last, col, col1 - 1) && OnlySpaces(r, t[offset..], last - offset)
    requires Next(r, t[last..]).c == SPACE && col1 % r.tw == 0 && col1 - col == ToStop(r, col)
    ensures Tidied(r, t0, t[..offset] + ([TAB] + t[offset1..]), bol, offset + 1, col + ToStop(r, col), start, stop + 1 - (offset1 - offset), stop0)
  {
    hide Tidied, OnlySpaces, BlankRun, BlanksAlone, LooksAhead, EndsAtBlank, Next, Neat;
    NotInForm(r, t0, t, bol, offset, col, start, stop, stop0, last - offset, col1 - 1 - col);
    FirstSpace(r, t[offset..], last - offset);
    var q := [TAB] + t[offset1..];
    AloneAt(r, q);
    TidyTab(r, t0, t, bol, offset, col, start, stop, stop0, q);
  }

  lemma TidyAtTab(r: Ruler, t0: seq<byte>, t: seq<byte>, bol: nat, offset: nat, col: nat, start: nat, stop: int, stop0: int, offset1: nat, col1: nat, size: nat)
    requires RulerOk(r) && Tidied(r, t0, t, bol, offset, col, start, stop, stop0) && start <= offset < offset1 < stop <= |t|
    requires SpaceRun(r, t, offset, offset1, col, col1) && OnlySpaces(r, t[offset..], offset1 - offset) && Next(r, t[offset1..]) == Glyph(TAB, size)
    ensures Tidied(r, t0, t[..offset] + t[offset1..], bol, offset + size, col1 + (r.tw - col1 % r.tw), start, stop - (offset1 - offset), stop0)
  {
    hide Tidied, OnlySpaces, BlankRun, BlanksAlone, LooksAhead, EndsAtBlank, Next, Neat;
    NotInForm(r, t0, t, bol, offset, col, start, stop, stop0, offset1 - offset, col1 - col);
    FirstSpace(r, t[offset..], offset1 - offset);
    TidyTab(r, t0, t, bol, offset, col, start, stop, stop0, t[offset1..]);
    SameStop(r.tw, col, col1 - col);
  }

  lemma TidyAtOther(r: Ruler, t0: seq<byte>, t: seq<byte>, bol: nat, offset: nat, col: nat, start: nat, stop: int, stop0: int, offset1: nat, col1: nat)
    requires RulerOk(r) && Tidied(r, t0, t, bol, offset, col, start, stop, stop0) && start <= offset < offset1 <= |t| && offset < stop <= |t|
    requires SpaceRun(r, t, offset, offset1, col, col1) && OnlySpaces(r, t[offset..], offset1 - offset)
    requires offset1 < stop ==> !Blank(Next(r, t[offset1..]).c)
    ensures Tidied(r, t0, t, bol, offset1, col1, start, stop, stop0)
  {
    hide Tidied, OnlySpaces, BlankRun, BlanksAlone, LooksAhead, EndsAtBlank, Next;
    TidyRun(r, t0, t, bol, offset, col, start, stop, stop0, offset1 - offset, col1 - col);
  }

  lemma TabIn(r: Ruler, t0: seq<byte>, t: seq<byte>, bol: nat, offset: nat, col: nat, start: nat, stop: int, stop0: int)
    requires r.tw > 0 && Tabbing(r, t0, t, bol, offset, col, start, stop, stop0)
    ensures offset <= |t| && bol <= start <= |t0| && start <= |t| && stop <= |t| && |t| - stop == |t0| - stop0 && t[..start] == t0[..start]
    ensures Expand(r, 0, t[bol..]) == Expand(r, 0, t0[bol..]) && offset < stop + LOOKAHEAD && SameTail(t0, t, Max(stop, offset))
  {
    hide Expand, ColAt, Between;
  }

  /** Spaces that stay. */
  lemma RunSkipped(r: Ruler, t0: seq<byte>, t: seq<byte>, bol: nat, offset: nat, col: nat, start: nat, stop: int, stop0: int, offset1: nat, col1: nat)
    requires r.tw > 0 && Tabbing(r, t0, t, bol, offset, col, start, stop, stop0) && SpaceRun(r, t, offset, offset1, col, col1) && offset1 < stop + LOOKAHEAD
    ensures Tabbing(r, t0, t, bol, offset1, col1, start, stop, stop0)
  {
    hide Going, Next, ToStop, SameTail, BlankRun;
    GoBlanks(r, t0, t, bol, offset, col, offset1 - offset, col1 - col);
    LaterTail(t0, t, Max(stop, offset), Max(stop, offset1));
  }

  /** The loop of do_tabify. */
  method TabifyFrom(e: EditBuffer, r: Ruler, bol: nat, start: nat, end: nat) returns (offset: nat, col: nat, stop: int)
    requires e.Valid() && Loggable(e.State()) && !e.readOnly && RulerOk(r) && bol <= start <= end <= |e.text.Text()|
    modifies e`modified, e`cursor, e`history, e.log, e.log.buf, e.watch`points, e.watch`origin, e.watch`cells, e.watch.styles, e.text
    ensures e.Valid() && Loggable(e.State()) && CleanRun(old(e.State()), e.State())
    ensures Tabbing(r, old(e.text.Text()), e.text.Text(), bol, offset, col, start, stop, end)
    ensures Tidied(r, old(e.text.Text()), e.text.Text(), bol, offset, col, start, stop, end) && stop <= offset
  {
    hide Flat, PageOk, Expand, Tabbing, Tidied, OnlySpaces, After, SameTail, BlanksAlone, LooksAhead, EndsAtBlank, Next, SideTables.Survives, SideTables.Watchers.Valid, UndoLogs.UndoLog.Valid, UndoLogs.UndoLog.At, Ok, CleanRun;
    ghost var t0, m0 := e.text.Text(), e.State();
    NoRun(m0);
    col, offset, stop := 0, bol, end;
    TabStart(r, t0, bol, start, stop);
    TidyStart(r, t0, bol, start, stop);
    while offset < stop
      invariant e.Valid() && Loggable(e.State()) && CleanRun(m0, e.State())
      invariant Tabbing(r, t0, e.text.Text(), bol, offset, col, start, stop, end)
      invariant Tidied(r, t0, e.text.Text(), bol, offset, col, start, stop, end)
      decreases stop - offset
    {
      ghost var t, now := e.text.Text(), e.State();
      TabOffset(r, t0, t, bol, offset, col, start, stop, end);
      var g := NextChar(e.text, r, offset);
      AloneAt(r, t[offset..]);
      TabNext(r, t0, t, bol, offset, col, start, stop, end);
      var next := NextCol(r, col, g.c);
      if g.c != SPACE || offset < start || next % r.tw == 0 {
        TidyNext(r, t0, t, bol, offset, col, start, stop, end);
        col, offset := next, offset + g.n;
        continue;
      }
      OneSpace(r, t, offset, col);
      OneOnly(r, t[offset..]);
      TabOffset(r, t0, t, bol, offset + g.n, col + 1, start, stop, end);
      offset, col, stop := TabifyRun(e, r, offset, offset + g.n, col, start, stop, bol, t0, end);
      CleanThen(m0, now, e.State());
    }
  }

  lemma OneOnly(r: Ruler, s: seq<byte>)
    requires s != [] && Next(r, s).c == SPACE
    ensures OnlySpaces(r, s, Next(r, s).n)
  {
    hide Next;
  }

  lemma TabOffset(r: Ruler, t0: seq<byte>, t: seq<byte>, bol: nat, offset: nat, col: nat, start: nat, stop: int, stop0: int)
    requires r.tw > 0 && Tabbing(r, t0, t, bol, offset, col, start, stop, stop0)
    ensures offset <= |t| && start <= |t| && stop <= |t| && offset < stop + LOOKAHEAD
  {
    hide Expand, ColAt, Between;
  }

  /** do_tabify. From the start of the line of the region on, the layout of the
      text stays, and so does every byte outside the region, but for a character
      across its end. The region is in the form of TabNormal afterwards; the text
      never grows, and it stays exactly when it was in that form. A region behind the end of the text changes nothing. */
  method Tabify(e: EditBuffer, tabWidth: int, width: int -> nat, dec: seq<byte> -> Glyph, prev: seq<byte> -> Glyph, p1: int, p2: int)
      returns (bol: nat, start: nat, stop: int, past: int)
    requires e.Valid() && Loggable(e.State()) && !e.readOnly && RulerOk(Ruler(TabWidth(tabWidth), width, dec))
    modifies e`modified, e`cursor, e`history, e.log, e.log.buf, e.watch`points, e.watch`origin, e.watch`cells, e.watch.styles, e.text
    ensures e.Valid() && Loggable(e.State()) && CleanRun(old(e.State()), e.State())
    ensures start == (if Min(p1, p2) > 0 then Min(p1, p2) else 0) && bol <= start && stop <= |e.text.Text()|
    ensures var stop0 := Min(|old(e.text.Text())|, if p1 < p2 then p2 else p1);
      if start > |old(e.text.Text())| || stop0 < start then e.text.Text() == old(e.text.Text()) && e.State() == old(e.State())
      else start <= |e.text.Text()| && |e.text.Text()| - stop == |old(e.text.Text())| - stop0 && stop <= past < stop + LOOKAHEAD && SameTail(old(e.text.Text()), e.text.Text(), past)
    ensures start <= |old(e.text.Text())| ==>
      var r := Ruler(TabWidth(tabWidth), width, dec);
      && e.text.Text()[..start] == old(e.text.Text())[..start]
      && (bol == 0 || Prev(prev, old(e.text.Text())[..bol]).c == LF) && NoLineEnd(prev, old(e.text.Text()), bol, start)
      && Expand(r, 0, e.text.Text()[bol..]) == Expand(r, 0, old(e.text.Text())[bol..])
    ensures var r, stop0 := Ruler(TabWidth(tabWidth), width, dec), Min(|old(e.text.Text())|, if p1 < p2 then p2 else p1);
      |e.text.Text()| <= |old(e.text.Text())| && (start <= stop0 ==>
        && TabNormal(r, e.text.Text(), bol, start, stop)
        && (e.text.Text() == old(e.text.Text()) <==> TabNormal(r, old(e.text.Text()), bol, start, stop0)))
  {
    hide Flat, PageOk, Expand, Tabbing, Tidied, TabNormal, NoLineEnd, After, SameTail, BlanksAlone, LooksAhead, EndsAtBlank, Next, SideTables.Survives, SideTables.Watchers.Valid, UndoLogs.UndoLog.Valid, UndoLogs.UndoLog.At, Ok, CleanRun;
    ghost var t0, m0 := e.text.Text(), e.State();
    var r := Ruler(TabWidth(tabWidth), width, dec);
    FlatSize(e.text.G(), e.text.pages);
    NoRun(m0);
    start := if Min(p1, p2) > 0 then Min(p1, p2) else 0;
    stop := Min(e.text.totalSize, if p1 < p2 then p2 else p1);
    past, bol := stop, 0;
    if start > e.text.totalSize { return; }
    bol := GotoBol(e.text, prev, start);
    if stop < start { return; }
    ghost var stop0 := stop;
    var offset, col;
    offset, col, stop := TabifyFrom(e, r, bol, start, stop);
    TabIn(r, t0, e.text.Text(), bol, offset, col, start, stop, stop0);
    TidyEnd(r, t0, e.text.Text(), bol, offset, col, start, stop, stop0);
    past := Max(stop, offset);
  }

  lemma TabStart(r: Ruler, t0: seq<byte>, bol: nat, start: nat, stop: int)
    requires r.tw > 0 && bol <= start <= stop <= |t0|
    ensures Tabbing(r, t0, t0, bol, bol, 0, start, stop, stop)
  {
    hide Expand;
  }

  lemma OneSpace(r: Ruler, t: seq<byte>, offset: nat, col: nat)
    requires RulerOk(r) && offset < |t| && Next(r, t[offset..]).c == SPACE && (col + 1) % r.tw != 0
    ensures SpaceRun(r, t, offset, offset + Next(r, t[offset..]).n, col, col + 1)
  {
    hide BlankRun, BlanksAlone, LooksAhead, EndsAtBlank, Next;
    var s := t[offset..];
    NoBlank(r, col, s);
    assert s[0..] == s;
    NextBlank(r, col, s, 0, 0);
    if ToStop(r, col) == 1 { NextStop(r.tw, col, 1); }
  }
}
