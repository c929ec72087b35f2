/** eb_read_one_byte, eb_write, eb_insert, eb_insert_buffer and eb_delete on a
    buffer without log or callbacks (the log and style buffers are such), and
    whole runs of them, against the same operations on a flat text. */
module PagedOps {
  import opened Bytes
  import opened Pages
  import opened PagedText

  /** The flat operations with the clipping of their arguments. */
  function InsertAnywhere(t: seq<byte>, o: int, data: seq<byte>): seq<byte> {
    if o < 0 then t else Inserted(t, Min(o, |t|), data)
  }

  function DeleteAnywhere(t: seq<byte>, o: int, n: int): seq<byte> {
    if o < 0 || o >= |t| || n <= 0 then t else Deleted(t, o, Min(n, |t| - o))
  }

  /** Bytes past the end are appended. */
  function WriteAnywhere(t: seq<byte>, o: int, data: seq<byte>): seq<byte> {
    if o < 0 || o > |t| then t else t[..o] + data + t[Min(o + |data|, |t|)..]
  }

  lemma WriteIsOverwriteThenInsert(t: seq<byte>, o: nat, data: seq<byte>)
    requires o <= |t|
    ensures var w := Min(|data|, |t| - o);
      WriteAnywhere(t, o, data) == Inserted(Overwritten(t, o, data[..w]), o + w, data[w..])
  {
    var w := Min(|data|, |t| - o);
    assert data[..w] + data[w..] == data;
    var u := Overwritten(t, o, data[..w]);
    assert u[..o + w] == t[..o] + data[..w];
    assert u[o + w..] == t[o + w..];
  }

  method ReadOneByte(b: PagedBuffer, offset: int) returns (c: int)
    requires b.Valid()
    modifies b`curPage, b`curOffset
    ensures b.Valid()
    ensures c == if 0 <= offset < |b.Text()| then b.Text()[offset] else -1
  {
    hide Flat, PageOk;
    FlatSize(b.G(), b.pages);
    if offset < 0 || offset >= b.totalSize { return -1; }
    var p, po := b.FindPage(offset);
    PageFits(b.G(), b.pages, p);
    PageWindow(b.G(), b.pages, p, po, po + 1);
    var data := DataOf(b.mapping, b.pages[p]);
    assert data[po..po + 1][0] == b.Text()[offset..offset + 1][0];
    c := data[po];
  }

  method Insert(b: PagedBuffer, offset: int, buf: seq<byte>) returns (n: nat)
    requires b.Valid()
    modifies b
    ensures b.Valid() && b.coding == old(b.coding) && b.Text() == InsertAnywhere(old(b.Text()), offset, buf)
    ensures n == if offset < 0 then 0 else |buf|
  {
    hide Flat, PageOk;
    FlatSize(b.G(), b.pages);
    var o := if offset > b.totalSize then b.totalSize else offset;
    if o < 0 || |buf| <= 0 { return 0; }
    b.InsertLowlevel(o, buf);
    n := |buf|;
  }

  method Write(b: PagedBuffer, offset: int, buf: seq<byte>) returns (n: nat)
    requires b.Valid()
    modifies b
    ensures b.Valid() && b.coding == old(b.coding) && b.Text() == WriteAnywhere(old(b.Text()), offset, buf)
    ensures n == if 0 <= offset <= |old(b.Text())| then |buf| else 0
  {
    hide Flat, PageOk, Overwritten, Inserted;
    ghost var t := b.Text();
    FlatSize(b.G(), b.pages);
    if offset < 0 || |buf| <= 0 || offset > b.totalSize { return 0; }
    var w := Min(|buf|, b.totalSize - offset);
    WriteIsOverwriteThenInsert(t, offset, buf);
    OverwriteNothing(t, offset, buf);
    if w > 0 { b.WriteRaw(offset, buf[..w]); }
    assert w == |buf| ==> buf[w..] == [];
    InsertNothing(b.Text(), offset + w);
    if |buf| > w {
      FlatSize(b.G(), b.pages);
      var _ := Insert(b, offset + w, buf[w..]);
    }
    n := |buf|;
  }

  lemma InsertNothing(t: seq<byte>, o: nat)
    requires o <= |t|
    ensures Inserted(t, o, []) == t
  {
  }

  method Delete(b: PagedBuffer, offset: int, size: int) returns (n: nat)
    requires b.Valid()
    modifies b
    ensures b.Valid() && b.coding == old(b.coding) && b.Text() == DeleteAnywhere(old(b.Text()), offset, size)
    ensures n == |old(b.Text())| - |b.Text()|
  {
    hide Flat, PageOk;
    FlatSize(b.G(), b.pages);
    if offset < 0 || offset >= b.totalSize || size <= 0 { return 0; }
    n := Min(size, b.totalSize - offset);
    b.DeleteRaw(offset, n);
  }

  method InsertBuffer(dest: PagedBuffer, destOffset: int, src: PagedBuffer, srcOffset: int, size: int) returns (n: nat)
    requires dest.Valid() && src.Valid() && dest != src
    modifies dest, src`curPage, src`curOffset
    ensures dest.Valid() && src.Valid() && dest.coding == old(dest.coding)
    ensures dest.Text() == if srcOffset < 0 then old(dest.Text())
                           else InsertAnywhere(old(dest.Text()), destOffset, Window(src.Text(), srcOffset, size))
    ensures n == |dest.Text()| - |old(dest.Text())|
  {
    hide Flat, PageOk, Inserted;
    FlatSize(dest.G(), dest.pages);
    FlatSize(src.G(), src.pages);
    InsertNothing(dest.Text(), if destOffset < 0 then 0 else Min(destOffset, dest.totalSize));
    if destOffset < 0 || srcOffset < 0 || srcOffset >= src.totalSize { return 0; }
    var len := if srcOffset + size > src.totalSize then src.totalSize - srcOffset else size;
    var at := Min(destOffset, dest.totalSize);
    if len <= 0 { return 0; }
    dest.InsertFrom(at, src, srcOffset, len);
    n := len;
  }

  /** One call on a buffer; a copy takes its bytes from another buffer. */
  datatype Call =
    | CallRead(offset: int, size: int)
    | CallWrite(offset: int, data: seq<byte>)
    | CallInsert(offset: int, data: seq<byte>)
    | CallDelete(offset: int, size: int)
    | CallCopy(offset: int, from: int, size: int)

  function Effect(t: seq<byte>, s: seq<byte>, c: Call): seq<byte> {
    match c
    case CallRead(_, _) => t
    case CallWrite(o, d) => WriteAnywhere(t, o, d)
    case CallInsert(o, d) => InsertAnywhere(t, o, d)
    case CallDelete(o, n) => DeleteAnywhere(t, o, n)
    case CallCopy(o, f, n) => InsertAnywhere(t, o, Window(s, f, n))
  }

  /** A run on the flat text: the final text, and what the reads return. */
  function FlatRun(t: seq<byte>, s: seq<byte>, calls: seq<Call>): (seq<byte>, seq<seq<byte>>)
    decreases |calls|
  {
    if calls == [] then (t, [])
    else
      var rest := FlatRun(Effect(t, s, calls[0]), s, calls[1..]);
      (rest.0, (if calls[0].CallRead? then [Window(t, calls[0].offset, calls[0].size)] else []) + rest.1)
  }

  /** Every run on pages is the run on the flat text; the page table stays well
      formed, the page cache names the right page, and since nothing modifies a
      mapping array no mapped byte changes. */
  method Run(b: PagedBuffer, src: PagedBuffer, calls: seq<Call>) returns (seen: seq<seq<byte>>)
    requires b.Valid() && src.Valid() && b != src
    modifies b, src`curPage, src`curOffset
    ensures b.Valid() && src.Valid()
    ensures (b.Text(), seen) == FlatRun(old(b.Text()), src.Text(), calls)
    decreases |calls|
  {
    if calls == [] { return []; }
    hide Flat, PageOk, Inserted, InsertAnywhere, DeleteAnywhere, WriteAnywhere, Window;
    ghost var t, s := b.Text(), src.Text();
    var first := [];
    match calls[0] {
      case CallRead(o, n) => var r := b.Read(o, n); first := [r];
      case CallWrite(o, d) => var _ := Write(b, o, d);
      case CallInsert(o, d) => var _ := Insert(b, o, d);
      case CallDelete(o, n) => var _ := Delete(b, o, n);
      case CallCopy(o, f, n) => var _ := InsertBuffer(b, o, src, f, n); NoWindow(b.Text(), s, o, f, n); NoWindow(t, s, o, f, n);
    }
    var rest := Run(b, src, calls[1..]);
    seen := first + rest;
  }

  lemma NoWindow(t: seq<byte>, s: seq<byte>, o: int, f: int, n: int)
    ensures f < 0 ==> InsertAnywhere(t, o, Window(s, f, n)) == t
  {
    if o >= 0 { InsertNothing(t, Min(o, |t|)); }
  }
}
