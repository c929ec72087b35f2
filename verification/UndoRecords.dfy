/** Undo records: their bytes in the log, the two ways to walk the log, and
    what it means for a record to undo an edit. */
module UndoRecords {
  import opened Bytes
  import opened PagedText

  const NB_LOGS_MAX: int := 100000

  /** sizeof(LogBuffer), and of the int that closes a record. */
  const HEADER: int := 12
  const TRAILER: int := 4

  datatype Op = OpWrite | OpInsert | OpDelete

  /** enum LogOperation; 0 is LOGOP_FREE. */
  function OpCode(op: Op): byte {
    match op
    case OpWrite => 1
    case OpInsert => 2
    case OpDelete => 3
  }

  /** A record keeps the bytes that a write or a delete is about to lose. */
  datatype Record = Record(op: Op, wasModified: bool, offset: nat, size: nat, data: seq<byte>)

  predicate RecordOk(r: Record) {
    0 < r.size && r.offset + r.size < TWO31 && |r.data| == if r.op == OpInsert then 0 else r.size
  }

  predicate RecordsOk(rs: seq<Record>) {
    forall i :: 0 <= i < |rs| ==> RecordOk(rs[i])
  }

  /** The fields of LogBuffer that are read back. */
  datatype Header = Header(op: byte, wasModified: byte, offset: int, size: int)

  function HeaderOf(r: Record): Header {
    Header(OpCode(r.op), if r.wasModified then 1 else 0, r.offset, r.size)
  }

  function HeaderBytes(h: Header): (s: seq<byte>)
    requires 0 <= h.offset < TWO31 && 0 <= h.size < TWO31
    ensures |s| == HEADER
  {
    [10, 58, h.op, h.wasModified] + U32(h.offset) + U32(h.size)
  }

  function ParseHeader(s: seq<byte>): (h: Header)
    requires |s| == HEADER
  {
    Header(s[2], s[3], Signed(GetU32(s, 4)), Signed(GetU32(s, 8)))
  }

  lemma HeaderRoundTrip(h: Header)
    requires 0 <= h.offset < TWO31 && 0 <= h.size < TWO31
    ensures ParseHeader(HeaderBytes(h)) == h
  {
    hide U32, GetU32;
    var s := HeaderBytes(h);
    assert s[4..8] == U32(h.offset);
    assert s[8..12] == U32(h.size);
    Field32(h.offset, s, 4);
    Field32(h.size, s, 8);
  }

  function Image(r: Record): (s: seq<byte>)
    requires RecordOk(r)
    ensures |s| == HEADER + |r.data| + TRAILER
  {
    HeaderBytes(HeaderOf(r)) + r.data + U32(|r.data|)
  }

  /** The bytes of a log. */
  function LogBytes(rs: seq<Record>): seq<byte>
    requires RecordsOk(rs)
  {
    if rs == [] then [] else Image(rs[0]) + LogBytes(rs[1..])
  }

  lemma {:induction false} LogConcat(rs: seq<Record>, qs: seq<Record>)
    requires RecordsOk(rs) && RecordsOk(qs)
    ensures RecordsOk(rs + qs) && LogBytes(rs + qs) == LogBytes(rs) + LogBytes(qs)
  {
    if rs == [] {
      assert rs + qs == qs;
    } else {
      assert (rs + qs)[1..] == rs[1..] + qs;
      LogConcat(rs[1..], qs);
    }
  }

  /** Where record i starts. */
  ghost function Mark(rs: seq<Record>, i: nat): nat
    requires RecordsOk(rs) && i <= |rs|
  {
    |LogBytes(rs[..i])|
  }

  lemma LogOne(r: Record)
    requires RecordOk(r)
    ensures LogBytes([r]) == Image(r)
  {
    assert LogBytes([r][1..]) == [];
  }

  lemma LogAt(rs: seq<Record>, i: nat)
    requires RecordsOk(rs) && i < |rs|
    ensures LogBytes(rs) == LogBytes(rs[..i]) + Image(rs[i]) + LogBytes(rs[i + 1..])
    ensures LogBytes(rs[..i + 1]) == LogBytes(rs[..i]) + Image(rs[i])
  {
    hide LogBytes, Image;
    LogOne(rs[i]);
    LogConcat(rs[..i], [rs[i]]);
    LogConcat(rs[..i + 1], rs[i + 1..]);
    assert rs[..i + 1] == rs[..i] + [rs[i]];
    assert rs == rs[..i + 1] + rs[i + 1..];
  }

  /** Marks at the ends, and in between. */
  lemma MarkEnds(rs: seq<Record>)
    requires RecordsOk(rs)
    ensures Mark(rs, 0) == 0 && Mark(rs, |rs|) == |LogBytes(rs)|
  {
    assert rs[..|rs|] == rs;
  }

  lemma {:induction false} MarkOrder(rs: seq<Record>, i: nat, j: nat)
    requires RecordsOk(rs) && i < j <= |rs|
    ensures Mark(rs, i) + HEADER + TRAILER <= Mark(rs, j)
  {
    hide LogBytes, Image;
    LogAt(rs, j - 1);
    if i < j - 1 { MarkOrder(rs, i, j - 1); }
  }

  /** The backward walk: the trailer before the end of record i leads to its
      start. The forward walk: the header at its start leads to its end. */
  lemma Walks(rs: seq<Record>, i: nat)
    requires RecordsOk(rs) && i < |rs|
    ensures Mark(rs, i + 1) == Mark(rs, i) + HEADER + |rs[i].data| + TRAILER <= |LogBytes(rs)|
    ensures Window(LogBytes(rs), Mark(rs, i + 1) - TRAILER, TRAILER) == U32(|rs[i].data|)
    ensures Window(LogBytes(rs), Mark(rs, i), HEADER) == HeaderBytes(HeaderOf(rs[i]))
    ensures Window(LogBytes(rs), Mark(rs, i) + HEADER, |rs[i].data|) == rs[i].data
  {
    hide LogBytes, HeaderBytes, U32;
    LogAt(rs, i);
    InTheMiddle(LogBytes(rs[..i]), HeaderBytes(HeaderOf(rs[i])), rs[i].data, U32(|rs[i].data|), LogBytes(rs[i + 1..]));
  }

  lemma InTheMiddle(pre: seq<byte>, h: seq<byte>, d: seq<byte>, u: seq<byte>, post: seq<byte>)
    requires |h| == HEADER && |u| == TRAILER
    ensures var s := pre + (h + d + u) + post;
      && Window(s, |pre|, HEADER) == h && Window(s, |pre| + HEADER, |d|) == d
      && Window(s, |pre| + HEADER + |d|, TRAILER) == u
  {
    var s := pre + (h + d + u) + post;
    assert s[|pre|..|pre| + HEADER] == h;
    assert s[|pre| + HEADER..|pre| + HEADER + |d|] == d;
    assert s[|pre| + HEADER + |d|..|pre| + HEADER + |d| + TRAILER] == u;
  }

  // What a record undoes

  /** A moment of an edit buffer. */
  datatype Snap = Snap(text: seq<byte>, modified: bool)

  predicate Applies(r: Record, t: seq<byte>) {
    if r.op == OpDelete then r.offset <= |t| else r.offset + r.size <= |t|
  }

  /** What playing a record backward does. */
  function Undone(r: Record, s: Snap): Snap
    requires RecordOk(r) && Applies(r, s.text)
  {
    var t := match r.op
      case OpInsert => Deleted(s.text, r.offset, r.size)
      case OpDelete => Inserted(s.text, r.offset, r.data)
      case OpWrite => Overwritten(s.text, r.offset, r.data);
    Snap(t, r.wasModified)
  }

  /** The record leads from one moment back to the one before. */
  ghost predicate Link(r: Record, before: Snap, after: Snap) {
    RecordOk(r) && Applies(r, after.text) && Undone(r, after) == before
  }

  /** The record of an edit of s, as eb_addlog makes it. */
  function Recorded(s: Snap, op: Op, offset: nat, size: nat): (r: Record)
    requires 0 < size && offset + size < TWO31 && (op != OpInsert ==> offset + size <= |s.text|)
    ensures RecordOk(r)
  {
    Record(op, s.modified, offset, size, if op == OpInsert then [] else s.text[offset..offset + size])
  }

  lemma InsertLinks(s: Snap, o: nat, d: seq<byte>, m: bool)
    requires o <= |s.text| && 0 < |d| && o + |d| < TWO31
    ensures Link(Recorded(s, OpInsert, o, |d|), s, Snap(Inserted(s.text, o, d), m))
  {
    var t := Inserted(s.text, o, d);
    assert t[..o] == s.text[..o] && t[o + |d|..] == s.text[o..];
    assert Deleted(t, o, |d|) == s.text;
  }

  lemma DeleteLinks(s: Snap, o: nat, n: nat, m: bool)
    requires 0 < n && o + n <= |s.text| && o + n < TWO31
    ensures Link(Recorded(s, OpDelete, o, n), s, Snap(Deleted(s.text, o, n), m))
  {
    var t := Deleted(s.text, o, n);
    assert t[..o] == s.text[..o] && t[o..] == s.text[o + n..];
    assert Inserted(t, o, s.text[o..o + n]) == s.text;
  }

  lemma WriteLinks(s: Snap, o: nat, d: seq<byte>, m: bool)
    requires 0 < |d| && o + |d| <= |s.text| && o + |d| < TWO31
    ensures Link(Recorded(s, OpWrite, o, |d|), s, Snap(Overwritten(s.text, o, d), m))
  {
    var t := Overwritten(s.text, o, d);
    assert t[..o] == s.text[..o] && t[o + |d|..] == s.text[o + |d|..];
    assert Overwritten(t, o, s.text[o..o + |d|]) == s.text;
  }

  /** A coalesced insert record stands for both inserts. */
  lemma CoalescedLinks(r: Record, s0: Snap, s1: Snap, d: seq<byte>, m: bool)
    requires Link(r, s0, s1) && r.op == OpInsert && r.offset + r.size + |d| < TWO31
    ensures Link(r.(size := r.size + |d|), s0, Snap(Inserted(s1.text, r.offset + r.size, d), m))
  {
    var o, n := r.offset, r.size;
    var t := Inserted(s1.text, o + n, d);
    assert t[..o] == s1.text[..o] && t[o + n + |d|..] == s1.text[o + n..];
    assert Deleted(t, o, n + |d|) == Deleted(s1.text, o, n);
  }

  /** The record that do_undo logs when it plays r at moment s: an insert for a
      delete and a delete for an insert, but for a write the bytes that the
      text holds after the write is undone. */
  function Counter(r: Record, s: Snap): (c: Record)
    requires RecordOk(r) && Applies(r, s.text)
    ensures RecordOk(c)
  {
    match r.op
    case OpInsert => Recorded(s, OpDelete, r.offset, r.size)
    case OpDelete => Recorded(s, OpInsert, r.offset, r.size)
    case OpWrite => Recorded(Snap(Undone(r, s).text, s.modified), OpWrite, r.offset, r.size)
  }

  /** Undoing an insert or a delete can itself be undone. Undoing a write can
      exactly when the write changed nothing. */
  lemma CounterLinks(r: Record, s0: Snap, s1: Snap)
    requires Link(r, s0, s1)
    ensures Link(Counter(r, s1), s1, s0) <==> (r.op == OpWrite ==> r.data == s1.text[r.offset..r.offset + r.size])
  {
    match r.op
    case OpInsert => DeleteLinks(s1, r.offset, r.size, s0.modified);
    case OpDelete => InsertLinks(s1, r.offset, r.data, s0.modified);
    case OpWrite => CounterOfWrite(r, s0, s1);
  }

  lemma CounterOfWrite(r: Record, s0: Snap, s1: Snap)
    requires Link(r, s0, s1) && r.op == OpWrite
    ensures Link(Counter(r, s1), s1, s0) <==> r.data == s1.text[r.offset..r.offset + r.size]
  {
    var o, n, t := r.offset, r.size, Overwritten(s1.text, r.offset, r.data);
    assert s0.text == t && t[o..o + n] == r.data;
    assert Overwritten(t, o, t[o..o + n]) == t;
    if r.data == s1.text[o..o + n] {
      assert t == s1.text;
    } else {
      assert t[o..o + n] != s1.text[o..o + n];
    }
  }
}
