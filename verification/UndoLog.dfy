/** The undo log of an edit buffer: records written to, walked in and removed
    from another paged buffer. */
module UndoLogs {
  import opened Bytes
  import opened Counting
  import opened Pages
  import opened PagedText
  import PagedOps
  import opened UndoRecords

  /** The records after the oldest one had to make room. */
  function Trimmed(rs: seq<Record>, full: bool): seq<Record> {
    if full && rs != [] then rs[1..] else rs
  }

  /** Whether an insert record continues the last one. */
  predicate Merges(rs: seq<Record>, lastLog: byte, r: Record) {
    && r.op == OpInsert && lastLog == OpCode(OpInsert)
    && rs != [] && rs[|rs| - 1].op == OpInsert && rs[|rs| - 1].offset + rs[|rs| - 1].size == r.offset
  }

  /** The records after eb_addlog. */
  function Added(rs: seq<Record>, lastLog: byte, r: Record): seq<Record> {
    if Merges(rs, lastLog, r)
    then rs[..|rs| - 1] + [rs[|rs| - 1].(size := rs[|rs| - 1].size + r.size)]
    else rs + [r]
  }

  class UndoLog {
    const buf: PagedBuffer
    var newIndex: int
    /** 0, or one more than the start of the record undone last. */
    var current: int
    var lastLog: byte
    var nbLogs: int
    ghost var records: seq<Record>

    ghost predicate Valid()
      reads this, buf, buf.mapping
    {
      && buf.Valid() && RecordsOk(records) && buf.Text() == LogBytes(records)
      && newIndex == |LogBytes(records)| && |records| <= nbLogs
    }

    /** current stands before record c. */
    ghost predicate At(c: nat)
      requires RecordsOk(records)
      reads this
    {
      c <= |records| && (current != 0 ==> current == Mark(records, c) + 1)
    }

    predicate Full()
      reads this
    {
      nbLogs >= NB_LOGS_MAX - 1
    }

    constructor ()
      ensures Valid() && records == [] && current == 0 && nbLogs == 0 && lastLog == 0 && fresh(buf) && fresh(buf.mapping)
    {
      buf := new PagedBuffer(Coding(false, Unix));
      newIndex, current, lastLog, nbLogs, records := 0, 0, 0, 0, [];
    }

    /** eb_read of sizeof(LogBuffer) bytes where record i starts. */
    method ReadHeader(index: int, ghost i: nat) returns (h: Header)
      requires Valid() && i < |records| && index == Mark(records, i)
      modifies buf`curPage, buf`curOffset
      ensures Valid() && h == HeaderOf(records[i])
    {
      hide Flat, PageOk, LogBytes, Window, HeaderBytes, ParseHeader, Mark;
      var s := buf.Read(index, HEADER);
      Walks(records, i);
      HeaderRoundTrip(HeaderOf(records[i]));
      h := ParseHeader(s);
    }

    /** The step backward over record i, by its trailer. */
    method Back(index: int, ghost i: nat) returns (start: int)
      requires Valid() && i < |records| && index == Mark(records, i + 1)
      modifies buf`curPage, buf`curOffset
      ensures Valid() && start == Mark(records, i)
    {
      hide Flat, PageOk, LogBytes, Window, U32, GetU32, Mark;
      start := index - TRAILER;
      var s := buf.Read(start, TRAILER);
      Walks(records, i);
      assert s[0..4] == s;
      Field32(|records[i].data|, s, 0);
      var size := Signed(GetU32(s, 0));
      start := start - (size + HEADER);
    }

    /** The step forward over record i, by its header. */
    method Forward(index: int, ghost i: nat) returns (next: int)
      requires Valid() && i < |records| && index == Mark(records, i)
      modifies buf`curPage, buf`curOffset
      ensures Valid() && next == Mark(records, i + 1)
    {
      hide Flat, PageOk, LogBytes, Mark;
      var h := ReadHeader(index, i);
      Walks(records, i);
      next := index + HEADER;
      if h.op != OpCode(OpInsert) { next := next + h.size; }
      next := next + TRAILER;
    }

    /** The deletion of the oldest record. */
    method RemoveOldest() returns (len: int)
      requires Valid() && records != []
      modifies this`newIndex, this`records, buf
      ensures Valid() && records == old(records)[1..] && len == |Image(old(records)[0])|
    {
      hide Flat, PageOk, LogBytes, Mark, PagedOps.DeleteAnywhere, HeaderBytes, U32;
      ghost var rs := records;
      MarkEnds(rs);
      var h := ReadHeader(0, 0);
      len := if h.op == OpCode(OpInsert) then 0 else h.size;
      len := len + HEADER + TRAILER;
      DropFirst(rs);
      var _ := PagedOps.Delete(buf, 0, len);
      newIndex := newIndex - len;
      records := rs[1..];
    }

    /** Room for one more record. */
    method Trim(ghost c: nat) returns (ghost c1: nat)
      requires Valid() && At(c) && (Full() ==> records != [])
      modifies this`newIndex, this`current, this`nbLogs, this`records, buf
      ensures Valid() && At(c1) && records == Trimmed(old(records), old(Full()))
      ensures c1 == (if old(Full()) && c > 0 then c - 1 else c) && (current == 0 <==> old(current) == 0)
      ensures nbLogs == old(nbLogs) - if old(Full()) then 1 else 0
    {
      c1 := c;
      if Full() {
        hide Flat, PageOk, LogBytes, Image, Mark;
        ghost var rs := records;
        var len := RemoveOldest();
        ShiftMark(rs, c, current, len);
        if current > 1 { current := current - len; }
        nbLogs := nbLogs - 1;
        c1 := if c > 0 then c - 1 else c;
      }
    }

    /** The attempt to continue the last insert record. */
    method TryMerge(offset: nat, size: nat, ghost c: nat) returns (merged: bool)
      requires Valid() && At(c) && 0 < size && offset + size < TWO31
      modifies this`records, buf
      ensures Valid() && At(c)
      ensures merged <==> Merges(old(records), lastLog, Record(OpInsert, false, offset, size, []))
      ensures records == if merged then Added(old(records), lastLog, Record(OpInsert, false, offset, size, [])) else old(records)
    {
      hide Flat, PageOk, LogBytes, Mark, HeaderBytes, U32, GetU32, Window, PagedOps.WriteAnywhere;
      ghost var rs, n := records, |records| - 1;
      MarkEnds(rs);
      if rs != [] { MarkOrder(rs, 0, |rs|); }
      if lastLog != OpCode(OpInsert) || newIndex < HEADER + TRAILER { return false; }
      Walks(rs, n);
      var s := buf.Read(newIndex - TRAILER, TRAILER);
      assert s[0..4] == s;
      Field32(|rs[n].data|, s, 0);
      if Signed(GetU32(s, 0)) != 0 { return false; }
      var h := ReadHeader(newIndex - HEADER - TRAILER, n);
      if h.op != OpCode(OpInsert) || h.offset + h.size != offset { return false; }
      var h1 := h.(size := h.size + size);
      var _ := PagedOps.Write(buf, newIndex - HEADER - TRAILER, HeaderBytes(h1));
      records := rs[..n] + [rs[n].(size := rs[n].size + size)];
      NewHeader(rs, rs[n].(size := rs[n].size + size), c);
      merged := true;
    }

    /** The bytes of a new record: header, the bytes about to be lost, trailer. */
    method PutRecord(text: PagedBuffer, op: Op, offset: nat, size: nat, wasModified: bool)
      requires buf.Valid() && newIndex == |buf.Text()| && text.Valid() && text != buf && 0 < size && offset + size < TWO31
      requires op != OpInsert ==> offset + size <= |text.Text()|
      modifies this`newIndex, buf, text`curPage, text`curOffset
      ensures buf.Valid() && text.Valid() && newIndex == |buf.Text()|
      ensures buf.Text() == old(buf.Text()) + Image(Recorded(Snap(text.Text(), wasModified), op, offset, size))
    {
      hide Flat, PageOk, HeaderBytes, U32;
      ghost var log, r := buf.Text(), Recorded(Snap(text.Text(), wasModified), op, offset, size);
      var header := HeaderBytes(Header(OpCode(op), if wasModified then 1 else 0, offset, size));
      PutEnd(header);
      var trailer := 0;
      if op != OpInsert {
        PutLost(text, offset, size);
        trailer := size;
      }
      PutEnd(U32(trailer));
      Pieces(log, header, r.data, U32(trailer), buf.Text());
    }

    /** eb_insert_buffer from the text to the end of the log. */
    method PutLost(text: PagedBuffer, offset: nat, size: nat)
      requires buf.Valid() && newIndex == |buf.Text()| && text.Valid() && text != buf && 0 < size && offset + size <= |text.Text()|
      modifies this`newIndex, buf, text`curPage, text`curOffset
      ensures buf.Valid() && text.Valid() && newIndex == |buf.Text()|
      ensures buf.Text() == old(buf.Text()) + text.Text()[offset..offset + size]
    {
      hide Flat, PageOk, Window, PagedOps.InsertAnywhere;
      Inside(text.Text(), offset, size);
      AppendedBytes(buf.Text(), text.Text()[offset..offset + size]);
      var _ := PagedOps.InsertBuffer(buf, newIndex, text, offset, size);
      newIndex := newIndex + size;
    }

    /** The new record. */
    method Append(text: PagedBuffer, op: Op, offset: nat, size: nat, wasModified: bool, ghost c: nat)
      requires Valid() && At(c) && text.Valid() && text != buf && 0 < size && offset + size < TWO31
      requires op != OpInsert ==> offset + size <= |text.Text()|
      modifies this`records, this`newIndex, this`nbLogs, buf, text`curPage, text`curOffset
      ensures Valid() && At(c) && text.Valid() && nbLogs == old(nbLogs) + 1
      ensures records == old(records) + [Recorded(Snap(text.Text(), wasModified), op, offset, size)]
    {
      hide Flat, PageOk, LogBytes, Mark, Image, Recorded, RecordsOk;
      Pushed(records, Recorded(Snap(text.Text(), wasModified), op, offset, size), c);
      PutRecord(text, op, offset, size, wasModified);
      nbLogs := nbLogs + 1;
      records := records + [Recorded(Snap(text.Text(), wasModified), op, offset, size)];
    }

    /** eb_write at the end of the log. */
    method PutEnd(data: seq<byte>)
      requires buf.Valid() && newIndex == |buf.Text()|
      modifies this`newIndex, buf
      ensures buf.Valid() && buf.Text() == old(buf.Text()) + data && newIndex == |buf.Text()|
    {
      hide Flat, PageOk, PagedOps.WriteAnywhere;
      AppendedBytes(buf.Text(), data);
      var _ := PagedOps.Write(buf, newIndex, data);
      newIndex := newIndex + |data|;
    }

    /** The logging part of eb_addlog. */
    method Add(text: PagedBuffer, op: Op, offset: nat, size: nat, wasModified: bool, ghost c: nat) returns (ghost c1: nat)
      requires Valid() && At(c) && (Full() ==> records != []) && text.Valid() && text != buf && 0 < size && offset + size < TWO31
      requires op != OpInsert ==> offset + size <= |text.Text()|
      modifies this, buf, text`curPage, text`curOffset
      ensures Valid() && text.Valid() && At(c1) && (current == 0 <==> old(current) == 0)
      ensures c1 == if old(Full()) && c > 0 then c - 1 else c
      ensures records == Added(Trimmed(old(records), old(Full())), old(lastLog), Recorded(Snap(text.Text(), wasModified), op, offset, size))
      ensures lastLog == OpCode(op)
      ensures nbLogs - |records| == old(nbLogs) - old(|records|)
    {
      hide Flat, PageOk, LogBytes, Mark;
      c1 := Trim(c);
      if op == OpInsert {
        var merged := TryMerge(offset, size, c1);
        if merged { return; }
      }
      lastLog := OpCode(op);
      Append(text, op, offset, size, wasModified, c1);
    }

    /** The removal of the last record by do_redo. */
    method RemoveLast(index: int, ghost c: nat)
      requires Valid() && records != [] && index == Mark(records, |records| - 1) && At(c) && c > 0
      modifies this`newIndex, this`records, this`current, buf
      ensures Valid() && records == old(records)[..|old(records)| - 1] && At(if c < |records| then c else |records|)
      ensures current == if old(current) == 0 || c >= |records| then 0 else old(current)
    {
      hide Flat, PageOk, LogBytes, Mark, PagedOps.DeleteAnywhere, Image;
      ghost var rs, n := records, |records| - 1;
      MarkEnds(rs);
      MarkOrder(rs, n, n + 1);
      CutLast(rs, if c < n then c else n);
      if c < n { MarkOrder(rs, c, n); }
      var _ := PagedOps.Delete(buf, index, newIndex - index);
      newIndex := index;
      records := rs[..n];
      if current >= index + 1 { current := 0; }
    }
  }

  /** Where current points after the first record is gone. */
  lemma ShiftMark(rs: seq<Record>, c: nat, current: int, len: int)
    requires RecordsOk(rs) && rs != [] && c <= |rs| && (current != 0 ==> current == Mark(rs, c) + 1) && len == |Image(rs[0])|
    ensures RecordsOk(rs[1..])
    ensures current > 1 ==> c > 0 && current - len == Mark(rs[1..], c - 1) + 1
    ensures current == 1 ==> c == 0 && current == Mark(rs[1..], 0) + 1
  {
    hide LogBytes, Image;
    MarkEnds(rs);
    MarkEnds(rs[1..]);
    if c > 0 { MarkTail(rs, c); MarkOrder(rs, 0, c); }
  }

  lemma DropFirst(rs: seq<Record>)
    requires RecordsOk(rs) && rs != []
    ensures RecordsOk(rs[1..]) && |LogBytes(rs)| == |Image(rs[0])| + |LogBytes(rs[1..])|
    ensures PagedOps.DeleteAnywhere(LogBytes(rs), 0, |Image(rs[0])|) == LogBytes(rs[1..])
  {
    hide Image;
    var s := LogBytes(rs);
    assert s[..0] + s[|Image(rs[0])|..] == LogBytes(rs[1..]);
  }

  lemma MarkTail(rs: seq<Record>, c: nat)
    requires RecordsOk(rs) && 0 < c <= |rs|
    ensures Mark(rs, c) == |Image(rs[0])| + Mark(rs[1..], c - 1)
  {
    hide Image;
    assert rs[..c][1..] == rs[1..][..c - 1];
  }

  /** Growing the last insert record changes its header in place. */
  lemma NewHeader(rs: seq<Record>, r: Record, c: nat)
    requires RecordsOk(rs) && rs != [] && c <= |rs| && RecordOk(r)
    requires rs[|rs| - 1].op == OpInsert && r == rs[|rs| - 1].(size := r.size)
    ensures var qs := rs[..|rs| - 1] + [r];
      && RecordsOk(qs) && |qs| == |rs| && Mark(qs, c) == Mark(rs, c) && |LogBytes(qs)| == |LogBytes(rs)|
      && LogBytes(qs) == PagedOps.WriteAnywhere(LogBytes(rs), Mark(rs, |rs| - 1), HeaderBytes(HeaderOf(r)))
  {
    hide LogBytes, HeaderBytes;
    var n := |rs| - 1;
    var qs := rs[..n] + [r];
    LogAt(rs, n);
    LogAt(qs, n);
    LogNil(rs[n + 1..]);
    LogNil(qs[n + 1..]);
    assert qs[..n] == rs[..n];
    if c <= n {
      assert qs[..c] == rs[..c];
    } else {
      assert qs[..c] == qs && rs[..c] == rs;
    }
    Rewritten(LogBytes(rs[..n]), HeaderBytes(HeaderOf(rs[n])), HeaderBytes(HeaderOf(r)), U32(0));
    assert Image(r) == HeaderBytes(HeaderOf(r)) + U32(0) && Image(rs[n]) == HeaderBytes(HeaderOf(rs[n])) + U32(0);
  }

  lemma LogNil(rs: seq<Record>)
    requires rs == []
    ensures LogBytes(rs) == []
  {
  }

  lemma Rewritten(pre: seq<byte>, x: seq<byte>, y: seq<byte>, post: seq<byte>)
    requires |x| == |y|
    ensures PagedOps.WriteAnywhere(pre + (x + post), |pre|, y) == pre + (y + post)
  {
  }

  lemma AppendedBytes(t: seq<byte>, data: seq<byte>)
    ensures PagedOps.WriteAnywhere(t, |t|, data) == t + data && PagedOps.InsertAnywhere(t, |t|, data) == t + data
  {
  }

  lemma Pieces(log: seq<byte>, h: seq<byte>, d: seq<byte>, u: seq<byte>, all: seq<byte>)
    requires all == (if d == [] then log + h + u else log + h + d + u)
    ensures all == log + (h + d + u)
  {
  }

  lemma Inside(t: seq<byte>, o: nat, n: nat)
    requires o + n <= |t| && n > 0
    ensures Window(t, o, n) == t[o..o + n]
  {
  }

  lemma Pushed(rs: seq<Record>, r: Record, c: nat)
    requires RecordsOk(rs) && RecordOk(r) && c <= |rs|
    ensures RecordsOk(rs + [r]) && LogBytes(rs + [r]) == LogBytes(rs) + Image(r) && Mark(rs + [r], c) == Mark(rs, c)
  {
    hide LogBytes, Image;
    LogOne(r);
    LogConcat(rs, [r]);
    assert (rs + [r])[..c] == rs[..c];
  }

  lemma CutEnd(pre: seq<byte>, last: seq<byte>)
    ensures PagedOps.DeleteAnywhere(pre + last, |pre|, |last|) == pre
  {
    assert (pre + last)[..|pre|] + (pre + last)[|pre| + |last|..] == pre;
  }

  lemma CutLast(rs: seq<Record>, c: nat)
    requires RecordsOk(rs) && rs != [] && c < |rs|
    ensures var n := |rs| - 1;
      && RecordsOk(rs[..n]) && |LogBytes(rs[..n])| == Mark(rs, n) && Mark(rs[..n], c) == Mark(rs, c)
      && PagedOps.DeleteAnywhere(LogBytes(rs), Mark(rs, n), |LogBytes(rs)| - Mark(rs, n)) == LogBytes(rs[..n])
  {
    hide LogBytes, Image, PagedOps.DeleteAnywhere, RecordsOk;
    var n := |rs| - 1;
    Prefixes(rs, n, c);
    LogAt(rs, n);
    CutEnd(LogBytes(rs[..n]), Image(rs[n]));
  }

  lemma Prefixes(rs: seq<Record>, n: nat, c: nat)
    requires RecordsOk(rs) && c <= n < |rs|
    ensures RecordsOk(rs[..n]) && RecordsOk(rs[n + 1..]) && RecordOk(rs[n]) && rs[..n][..c] == rs[..c] && rs[..|rs|] == rs
  {
  }
}
