/** The paged buffer of buffer.c: a page table, its cursor cache, and the raw
    operations on it. Every operation is proved equal to the same operation on
    the flat text. Logging and callbacks are added by EditBuffer. */
module PagedText {
  import opened Bytes
  import opened Counting
  import opened Pages

  function Min(a: int, b: int): int {
    if a < b then a else b
  }

  /** The flat operations. */
  function Inserted(t: seq<byte>, o: nat, data: seq<byte>): (r: seq<byte>)
    requires o <= |t|
    ensures |r| == |t| + |data|
  {
    t[..o] + data + t[o..]
  }

  function Deleted(t: seq<byte>, o: nat, n: nat): (r: seq<byte>)
    requires o + n <= |t|
    ensures |r| == |t| - n
  {
    t[..o] + t[o + n..]
  }

  function Overwritten(t: seq<byte>, o: nat, data: seq<byte>): (r: seq<byte>)
    requires o + |data| <= |t|
    ensures |r| == |t|
  {
    t[..o] + data + t[o + |data|..]
  }

  /** What eb_read returns. */
  function Window(t: seq<byte>, o: int, n: int): seq<byte> {
    if o < 0 || n <= 0 || o >= |t| then [] else t[o..Min(o + n, |t|)]
  }

  lemma InsertTwice(t: seq<byte>, o: nat, d: seq<byte>, e: seq<byte>)
    requires o <= |t|
    ensures Inserted(Inserted(t, o, d), o + |d|, e) == Inserted(t, o, d + e)
  {
  }

  lemma OverwriteTwice(t: seq<byte>, o: nat, d: seq<byte>, e: seq<byte>)
    requires o + |d| + |e| <= |t|
    ensures Overwritten(Overwritten(t, o, d), o + |d|, e) == Overwritten(t, o, d + e)
  {
  }

  lemma DeleteTwice(t: seq<byte>, o: nat, m: nat, n: nat)
    requires o + m + n <= |t|
    ensures Deleted(Deleted(t, o, m), o, n) == Deleted(t, o, m + n)
  {
  }

  /** The second half of eb_insert1: n pages, all but the last one full. */
  method Cut(ghost g: Ground, buf: seq<byte>, n: nat) returns (ps: seq<Page>)
    requires n == (|buf| + MAX_PAGE_SIZE - 1) / MAX_PAGE_SIZE
    ensures |ps| == n && AllOk(g, ps) && Flat(g, ps) == buf
  {
    hide PageOk;
    var left, size := buf, |buf|;
    ps := [];
    while size > 0
      invariant size == |left| && AllOk(g, ps) && Flat(g, ps) + left == buf
      invariant |ps| + (size + MAX_PAGE_SIZE - 1) / MAX_PAGE_SIZE == n
      decreases size
    {
      var len := Min(size, MAX_PAGE_SIZE);
      var p := Plain(left[..len]);
      PlainOk(g, left[..len]);
      FlatOne(g, p);
      FlatConcat(g, ps, [p]);
      assert left == left[..len] + left[len..];
      ps := ps + [p];
      left, size := left[len..], size - len;
    }
  }

  /** p->data as the bytes it points to. */
  function DataOf(file: array<byte>, p: Page): (s: seq<byte>)
    requires Backed(file[..], p)
    reads file
    ensures s == PageBytes(file[..], p)
  {
    match p.data
    case Mapped(start) => file[start..start + p.size]
    case Owned(bytes) => bytes
  }

  lemma GatherStep(g: Ground, ps: seq<Page>, p: nat, po: nat, len: nat, from: nat)
    requires AllOk(g, ps) && p < |ps| && po + len <= ps[p].size && from <= Size(ps[..p]) + po
    ensures Size(ps[..p]) + po + len <= |Flat(g, ps)|
    ensures Flat(g, ps)[from..Size(ps[..p]) + po] + PageBytes(g.file, ps[p])[po..po + len] == Flat(g, ps)[from..Size(ps[..p]) + po + len]
  {
    hide Flat, PageOk, PageBytes;
    PageWindow(g, ps, p, po, po + len);
  }

  /** The page loop of eb_read. */
  method Gather(file: array<byte>, ghost c: Coding, pages: seq<Page>, page: nat, pageOffset: nat, size: nat) returns (buf: seq<byte>)
    requires AllOk(Ground(file[..], c), pages) && page < |pages| && pageOffset < pages[page].size
    requires 0 < size && Size(pages[..page]) + pageOffset + size <= |Flat(Ground(file[..], c), pages)|
    ensures buf == Flat(Ground(file[..], c), pages)[Size(pages[..page]) + pageOffset..Size(pages[..page]) + pageOffset + size]
  {
    hide Flat, PageOk;
    ghost var g := Ground(file[..], c);
    ghost var t, from := Flat(g, pages), Size(pages[..page]) + pageOffset;
    FlatSize(g, pages);
    var p: nat, po: nat, remain: nat := page, pageOffset, size;
    buf := [];
    while true
      invariant 0 < remain <= size && p < |pages| && po < pages[p].size
      invariant Size(pages[..p]) + po == from + size - remain && buf == t[from..from + size - remain]
      decreases remain
    {
      var len := Min(pages[p].size - po, remain);
      GatherStep(g, pages, p, po, len, from);
      PageFits(g, pages, p);
      buf := buf + DataOf(file, pages[p])[po..po + len];
      remain := remain - len;
      if remain <= 0 { break; }
      NextPage(g, pages, p);
      p, po := p + 1, 0;
    }
  }

  lemma OverwriteNothing(t: seq<byte>, o: nat, buf: seq<byte>)
    requires o <= |t|
    ensures Overwritten(t, o, buf[..0]) == t
  {
  }

  lemma OverwriteMore(t: seq<byte>, o: nat, buf: seq<byte>, done: nat, len: nat)
    requires done + len <= |buf| && o + |buf| <= |t|
    ensures Overwritten(Overwritten(t, o, buf[..done]), o + done, buf[done..done + len]) == Overwritten(t, o, buf[..done + len])
  {
    hide Overwritten;
    OverwriteTwice(t, o, buf[..done], buf[done..done + len]);
    assert buf[..done] + buf[done..done + len] == buf[..done + len];
  }

  /** The text around one page whose bytes change in the middle. */
  lemma Overlaid(g: Ground, ps: seq<Page>, p: nat, po: nat, chunk: seq<byte>, copy: seq<byte>)
    requires AllOk(g, ps) && p < |ps| && po + |chunk| <= ps[p].size
    requires copy == PageBytes(g.file, ps[p])[..po] + chunk + PageBytes(g.file, ps[p])[po + |chunk|..]
    ensures AllOk(g, ps[..p]) && AllOk(g, ps[p + 1..]) && Size(ps[..p]) + po + |chunk| <= |Flat(g, ps)|
    ensures Flat(g, ps[..p]) + copy + Flat(g, ps[p + 1..]) == Overwritten(Flat(g, ps), Size(ps[..p]) + po, chunk)
  {
    hide Flat, PageOk, PageBytes;
    FlatAt(g, ps, p);
  }

  lemma NextPage(g: Ground, ps: seq<Page>, p: nat)
    requires AllOk(g, ps) && p < |ps| && Size(ps[..p]) + ps[p].size < Size(ps)
    ensures p + 1 < |ps| && Size(ps[..p + 1]) == Size(ps[..p]) + ps[p].size && 0 < ps[p + 1].size
  {
    hide Flat, PosOf, Chars;
    SizeTake(ps, p);
  }

  lemma Spliced(g: Ground, ps: seq<Page>, i: nat, added: seq<Page>, qs: seq<Page>)
    requires AllOk(g, ps) && AllOk(g, added) && i <= |ps| && qs == ps[..i] + added + ps[i..]
    ensures AllOk(g, qs) && qs[..i] == ps[..i] && AllOk(g, ps[i..]) && AllOk(g, qs[i..])
    ensures Flat(g, qs[i..]) == Flat(g, added) + Flat(g, ps[i..])
  {
    hide Flat, PageOk;
    FlatConcat(g, added, ps[i..]);
    assert qs[i..] == added + ps[i..];
  }

  lemma JoinBack(buf: seq<byte>, k: nat, rest: seq<byte>)
    requires k <= |buf|
    ensures buf[..k] + (buf[k..] + rest) == buf + rest
    ensures k == |buf| ==> buf[k..] + rest == rest
    ensures buf[k..|buf|] == buf[k..]
  {
  }

  /** The place of an insertion: not at the start of a page, unless the page
      before it is full. */
  predicate Spot(ps: seq<Page>, p: nat, po: nat, offset: nat) {
    && p < |ps| && po <= ps[p].size && Size(ps[..p]) + po == offset
    && (po > 0 || (p > 0 && ps[p - 1].size == MAX_PAGE_SIZE))
  }

  lemma FlatPair(g: Ground, p: Page, q: Page)
    requires PageOk(g, p) && PageOk(g, q)
    ensures AllOk(g, [p, q]) && Flat(g, [p, q]) == PageBytes(g.file, p) + PageBytes(g.file, q)
  {
    hide Flat, PageOk, PageBytes;
    FlatOne(g, p);
    FlatOne(g, q);
    FlatConcat(g, [p], [q]);
    assert [p, q] == [p] + [q];
  }

  lemma FlatThree(g: Ground, a: seq<Page>, b: seq<Page>, c: seq<Page>)
    requires AllOk(g, a) && AllOk(g, b) && AllOk(g, c)
    ensures AllOk(g, a + (b + c)) && Flat(g, a + (b + c)) == Flat(g, a) + (Flat(g, b) + Flat(g, c))
  {
    hide Flat, AllOk;
    FlatConcat(g, b, c);
    FlatConcat(g, a, b + c);
  }

  lemma AroundPair(ps: seq<Page>, p: nat)
    requires 0 < p < |ps|
    ensures ps == ps[..p - 1] + ([ps[p - 1], ps[p]] + ps[p + 1..])
  {
  }

  /** Pages p - 1 and p hold the same bytes in other pages. */
  lemma Repaged(g: Ground, ps: seq<Page>, p: nat, mid: seq<Page>)
    requires AllOk(g, ps) && 0 < p < |ps| && AllOk(g, mid)
    requires Flat(g, mid) == PageBytes(g.file, ps[p - 1]) + PageBytes(g.file, ps[p])
    ensures AllOk(g, ps[..p - 1] + (mid + ps[p + 1..]))
    ensures Flat(g, ps[..p - 1] + (mid + ps[p + 1..])) == Flat(g, ps)
  {
    hide Flat, AllOk, PageBytes;
    OkAt(g, ps, p);
    OkAt(g, ps, p - 1);
    AllOkSplit(g, ps, p - 1);
    AllOkSplit(g, ps, p + 1);
    FlatPair(g, ps[p - 1], ps[p]);
    AroundPair(ps, p);
    FlatThree(g, ps[..p - 1], [ps[p - 1], ps[p]], ps[p + 1..]);
    FlatThree(g, ps[..p - 1], mid, ps[p + 1..]);
  }

  lemma AroundPairUpdate(ps: seq<Page>, p: nat, x: Page, y: Page)
    requires 0 < p < |ps|
    ensures ps[p - 1 := x][p := y] == ps[..p - 1] + ([x, y] + ps[p + 1..])
  {
  }

  /** Pages p - 1 and p with some bytes moved from the second to the first. */
  lemma Shifted(g: Ground, ps: seq<Page>, p: nat, chunk: nat, qs: seq<Page>)
    requires AllOk(g, ps) && 0 < p < |ps| && chunk < ps[p].size && ps[p - 1].size + chunk <= MAX_PAGE_SIZE
    requires var a, b := PageBytes(g.file, ps[p - 1]), PageBytes(g.file, ps[p]);
      qs == ps[p - 1 := Plain(a + b[..chunk])][p := Plain(b[chunk..])]
    ensures AllOk(g, qs) && Flat(g, qs) == Flat(g, ps)
    ensures Size(qs[..p]) == Size(ps[..p]) + chunk == Size(qs[..p - 1]) + qs[p - 1].size
  {
    hide Flat, AllOk, PageBytes, PageOk, Size;
    PageFits(g, ps, p);
    PageFits(g, ps, p - 1);
    var a, b := PageBytes(g.file, ps[p - 1]), PageBytes(g.file, ps[p]);
    var x, y := Plain(a + b[..chunk]), Plain(b[chunk..]);
    PlainOk(g, a + b[..chunk]);
    PlainOk(g, b[chunk..]);
    FlatPair(g, x, y);
    assert a + b[..chunk] + b[chunk..] == a + b;
    Repaged(g, ps, p, [x, y]);
    AroundPairUpdate(ps, p, x, y);
    assert qs[..p - 1] == ps[..p - 1];
    SizeTake(ps, p - 1);
    SizeTake(qs, p - 1);
  }

  /** Page p moved whole to the end of page p - 1. */
  lemma Fused(g: Ground, ps: seq<Page>, p: nat, qs: seq<Page>)
    requires AllOk(g, ps) && 0 < p < |ps| && ps[p - 1].size + ps[p].size <= MAX_PAGE_SIZE
    requires var a, b := PageBytes(g.file, ps[p - 1]), PageBytes(g.file, ps[p]);
      qs == ps[..p - 1] + ([Plain(a + b)] + ps[p + 1..])
    ensures AllOk(g, qs) && Flat(g, qs) == Flat(g, ps)
    ensures qs[..p - 1] == ps[..p - 1] && Size(ps[..p]) == Size(ps[..p - 1]) + ps[p - 1].size
  {
    hide Flat, PageOk, PageBytes;
    PageFits(g, ps, p);
    PageFits(g, ps, p - 1);
    var a, b := PageBytes(g.file, ps[p - 1]), PageBytes(g.file, ps[p]);
    PlainOk(g, a + b);
    FlatOne(g, Plain(a + b));
    Repaged(g, ps, p, [Plain(a + b)]);
    SizeTake(ps, p - 1);
  }

  /** A page table seen from page p: the pages before, its bytes, the text after. */
  ghost predicate Shape(g: Ground, ps: seq<Page>, p: nat, pre: seq<Page>, mid: seq<byte>, rest: seq<byte>) {
    && AllOk(g, ps) && p < |ps| && ps[..p] == pre && AllOk(g, ps[p + 1..])
    && PageBytes(g.file, ps[p]) == mid && Flat(g, ps[p + 1..]) == rest
  }

  lemma ShapeOf(g: Ground, ps: seq<Page>, p: nat)
    requires AllOk(g, ps) && p < |ps|
    ensures AllOk(g, ps[p + 1..]) && PageOk(g, ps[p])
    ensures Shape(g, ps, p, ps[..p], PageBytes(g.file, ps[p]), Flat(g, ps[p + 1..]))
  {
    hide Flat;
  }

  lemma ShapeFlat(g: Ground, ps: seq<Page>, p: nat, pre: seq<Page>, mid: seq<byte>, rest: seq<byte>)
    requires Shape(g, ps, p, pre, mid, rest)
    ensures AllOk(g, ps) && AllOk(g, pre) && Flat(g, ps) == Flat(g, pre) + mid + rest && |Flat(g, pre)| == Size(pre)
  {
    hide Flat, PageBytes;
    FlatAt(g, ps, p);
  }

  lemma SamePrefix(ps: seq<Page>, qs: seq<Page>, p: nat)
    requires p < |ps| && p < |qs| && ps[..p + 1] == qs[..p + 1]
    ensures ps[..p] == qs[..p] && ps[p] == qs[p]
  {
    assert ps[..p + 1][..p] == qs[..p + 1][..p];
    assert ps[..p + 1][p] == qs[..p + 1][p];
  }

  /** The pieces of an insertion inside one page add up: what is pushed out
      follows what is inserted, whether or not all of it fits. */
  lemma InsertSum(pre: seq<byte>, here: seq<byte>, post: seq<byte>, po: nat, buf: seq<byte>, len: nat, lenOut: nat)
    requires po <= |here| - lenOut && len <= |buf| && (len == |buf| || lenOut == |here| - po)
    ensures var kept, tail := here[..|here| - lenOut], (if lenOut > 0 then here[|here| - lenOut..] + post else post);
      pre + (kept[..po] + buf[..len] + kept[po..]) + (if |buf| > len then buf[len..] + tail else tail)
        == Inserted(pre + here + post, |pre| + po, buf)
  {
    var kept := here[..|here| - lenOut];
    var t := pre + here + post;
    assert t[..|pre| + po] == pre + kept[..po];
    assert t[|pre| + po..] == here[po..] + post;
    if lenOut > 0 {
      assert here[po..] == kept[po..] + here[|here| - lenOut..];
    } else {
      assert kept == here;
    }
    if len < |buf| {
      assert buf == buf[..len] + buf[len..];
      assert kept[po..] == [];
    } else {
      assert buf[..len] == buf;
    }
  }

  lemma SpotIn(ps: seq<Page>, p: nat, po: nat, offset: nat)
    requires Spot(ps, p, po, offset)
    ensures p < |ps| && po <= ps[p].size
  {
  }

  lemma InsertFront(t: seq<byte>, buf: seq<byte>)
    ensures Inserted(t, 0, buf) == buf + t && (buf == [] ==> Inserted(t, 0, buf) == t)
  {
  }

  lemma InsertFrom0(t: seq<byte>, o: nat, s: seq<byte>, from: nat)
    requires o <= |t| && from <= |s|
    ensures Inserted(t, o, s[from..from]) == t
  {
  }

  /** The text of a page table without n pages from d on. */
  ghost function Live(g: Ground, ps: seq<Page>, d: nat, n: nat): seq<byte>
    requires AllOk(g, ps) && d + n <= |ps|
  {
    Flat(g, ps[..d]) + Flat(g, ps[d + n..])
  }

  /** Where the deleted pages start; here when there are none yet. */
  function Start(n: nat, delStart: int, p: nat): int {
    if n == 0 then p else delStart
  }

  /** The state of the loop of eb_delete. */
  ghost predicate Deleting(ps: seq<Page>, p: nat, po: nat, n: nat, delStart: int, left: int, offset: nat) {
    var d := Start(n, delStart, p);
    && 0 <= d && d + n <= |ps| && (n == 0 ==> p <= |ps|)
    && (left > 0 ==> p == d + n < |ps| && po < ps[p].size && Size(ps[..d]) + po == offset && (n > 0 ==> po == 0))
  }

  lemma DeleteNothing(t: seq<byte>, o: nat)
    requires o <= |t|
    ensures Deleted(t, o, 0) == t
  {
  }

  lemma LiveWhole(g: Ground, ps: seq<Page>, d: nat)
    requires AllOk(g, ps) && d <= |ps|
    ensures Live(g, ps, d, 0) == Flat(g, ps)
  {
    hide Flat, PageOk;
    FlatSplit(g, ps, d);
  }

  lemma LiveSize(g: Ground, ps: seq<Page>, d: nat, n: nat)
    requires AllOk(g, ps) && d + n <= |ps|
    ensures |Live(g, ps, d, n)| == Size(ps[..d]) + Size(ps[d + n..])
    ensures d + n == |ps| ==> Size(ps[d + n..]) == 0
    ensures d + n < |ps| ==> 0 < ps[d + n].size <= Size(ps[d + n..])
  {
    hide Flat;
    FlatSize(g, ps[..d]);
    FlatSize(g, ps[d + n..]);
  }

  lemma Collected(g: Ground, ps: seq<Page>, d: nat, n: nat)
    requires AllOk(g, ps) && d + n <= |ps|
    ensures AllOk(g, ps[..d] + ps[d + n..]) && Flat(g, ps[..d] + ps[d + n..]) == Live(g, ps, d, n)
    ensures n == 0 ==> ps[..d] + ps[d + n..] == ps
  {
    hide Flat, PageOk;
    FlatConcat(g, ps[..d], ps[d + n..]);
  }

  lemma Dropped(g: Ground, ps: seq<Page>, d: nat, n: nat, offset: nat, t: seq<byte>, done: nat)
    requires AllOk(g, ps) && d + n < |ps| && Size(ps[..d]) == offset
    requires offset + done + ps[d + n].size <= |t| && Live(g, ps, d, n) == Deleted(t, offset, done)
    ensures Live(g, ps, d, n + 1) == Deleted(t, offset, done + ps[d + n].size)
  {
    hide Flat, PageOk, PageBytes;
    FlatSize(g, ps[..d]);
    HeadPage(g, ps[d + n..]);
    assert ps[d + n..][1..] == ps[d + n + 1..];
    DeleteTwice(t, offset, done, ps[d + n].size);
  }

  lemma DeleteInside(x: seq<byte>, b: seq<byte>, y: seq<byte>, po: nat, len: nat)
    requires po + len <= |b|
    ensures Deleted(x + (b + y), |x| + po, len) == x + ((b[..po] + b[po + len..]) + y)
  {
  }

  lemma Clipped(g: Ground, ps: seq<Page>, qs: seq<Page>, d: nat, n: nat, po: nat, len: nat, offset: nat, t: seq<byte>, done: nat)
    requires AllOk(g, ps) && AllOk(g, qs) && d + n < |ps| && po + len <= ps[d + n].size && Size(ps[..d]) + po == offset
    requires qs == ps[d + n := Plain(PageBytes(g.file, ps[d + n])[..po] + PageBytes(g.file, ps[d + n])[po + len..])]
    requires offset + done + len <= |t| && Live(g, ps, d, n) == Deleted(t, offset, done)
    ensures Live(g, qs, d, n) == Deleted(t, offset, done + len)
  {
    hide Flat, PageOk, PageBytes, Deleted;
    FlatSize(g, ps[..d]);
    HeadPage(g, ps[d + n..]);
    HeadPage(g, qs[d + n..]);
    assert ps[..d] == qs[..d];
    assert ps[d + n..][1..] == qs[d + n..][1..];
    DeleteTwice(t, offset, done, len);
    PageFits(g, ps, d + n);
    var data := PageBytes(g.file, ps[d + n]);
    DeleteInside(Flat(g, ps[..d]), data, Flat(g, ps[d + n..][1..]), po, len);
    PlainBytes(g, data[..po] + data[po + len..]);
  }

  lemma PlainBytes(g: Ground, bytes: seq<byte>)
    ensures Backed(g.file, Plain(bytes)) && PageBytes(g.file, Plain(bytes)) == bytes
  {
  }

  /** All pages but the last are full. */
  ghost predicate Evenly(ps: seq<Page>, n: nat) {
    forall i :: 0 <= i <= |ps| ==> Size(ps[..i]) == Min(MAX_PAGE_SIZE * i, n)
  }

  lemma NoPages(g: Ground, n: nat)
    ensures Evenly([], n) && AllOk(g, []) && Flat(g, []) == []
  {
  }

  lemma EvenlyPush(ps: seq<Page>, p: Page, n: nat)
    requires Evenly(ps, n) && MAX_PAGE_SIZE * |ps| <= n && p.size == Min(n - MAX_PAGE_SIZE * |ps|, MAX_PAGE_SIZE)
    ensures Evenly(ps + [p], n)
  {
    SizeConcat(ps, [p]);
    assert Size([p]) == p.size + Size([]);
    var qs := ps + [p];
    forall i | 0 <= i <= |qs| ensures Size(qs[..i]) == Min(MAX_PAGE_SIZE * i, n) {
      if i <= |ps| { assert qs[..i] == ps[..i]; } else { assert qs[..i] == qs && ps[..|ps|] == ps; }
    }
  }

  class PagedBuffer {
    /** The file mapping; no method may modify it. */
    const mapping: array<byte>
    var coding: Coding
    var pages: seq<Page>
    var totalSize: int
    /** The page cache: an index in the page table, or -1 for none. */
    var curPage: int
    var curOffset: int

    ghost function G(): Ground
      reads this, mapping
    {
      Ground(mapping[..], coding)
    }

    ghost predicate Stored()
      reads this, mapping
    {
      AllOk(G(), pages)
    }

    ghost predicate CacheOk()
      reads this
    {
      curPage >= 0 ==> curPage < |pages| && curOffset == Size(pages[..curPage])
    }

    ghost predicate Valid()
      reads this, mapping
    {
      Stored() && CacheOk() && totalSize == Size(pages)
    }

    ghost function Text(): (t: seq<byte>)
      requires Stored()
      reads this, mapping
    {
      Flat(G(), pages)
    }

    /** eb_new. */
    constructor (c: Coding)
      ensures Valid() && Text() == [] && coding == c && fresh(mapping)
    {
      mapping := new byte[0];
      coding := c;
      pages, totalSize, curPage, curOffset := [], 0, -1, 0;
    }

    /** eb_mmap_buffer: the pages of a mapped file. */
    constructor FromMapping(c: Coding, file: array<byte>)
      ensures Valid() && mapping == file && Text() == file[..] && coding == c
      ensures Evenly(pages, file.Length) && file.Length <= MAX_PAGE_SIZE * |pages| < file.Length + MAX_PAGE_SIZE
    {
      hide Flat, Evenly;
      mapping := file;
      coding := c;
      totalSize, curPage, curOffset := file.Length, -1, 0;
      var table: seq<Page> := [];
      var start := 0;
      ghost var g := Ground(file[..], c);
      NoPages(g, file.Length);
      while start < file.Length
        invariant 0 <= start <= file.Length && g == Ground(file[..], c)
        invariant AllOk(g, table) && Flat(g, table) == file[..start]
        invariant Evenly(table, file.Length) && start == Min(MAX_PAGE_SIZE * |table|, file.Length) && MAX_PAGE_SIZE * |table| < file.Length + MAX_PAGE_SIZE
      {
        var len := Min(file.Length - start, MAX_PAGE_SIZE);
        var p := Page(len, Mapped(start), Stale, Stale);
        FlatOne(g, p);
        FlatConcat(g, table, [p]);
        assert file[..start] + file[..][start..start + len] == file[..start + len];
        FlatSize(g, table);
        EvenlyPush(table, p, file.Length);
        table := table + [p];
        start := start + len;
      }
      pages := table;
      FlatSize(g, table);
      assert file[..start] == file[..];
    }

    /** find_page. */
    method FindPage(offset: nat) returns (p: nat, pageOffset: nat)
      requires Stored() && CacheOk() && offset < Size(pages)
      modifies this`curPage, this`curOffset
      ensures CacheOk()
      ensures p < |pages| && pageOffset < pages[p].size && offset == Size(pages[..p]) + pageOffset
    {
      p, pageOffset := 0, offset;
      if curPage >= 0 && offset >= curOffset {
        p := curPage;
        pageOffset := offset - curOffset;
        if pageOffset < pages[p].size { return; }
      }
      while pageOffset >= pages[p].size
        invariant p < |pages| && offset == Size(pages[..p]) + pageOffset
        decreases |pages| - p
      {
        SizeTake(pages, p);
        pageOffset := pageOffset - pages[p].size;
        p := p + 1;
      }
      curOffset := offset - pageOffset;
      curPage := p;
    }

    /** update_page: copy a read-only page, drop the cached counts. */
    method UpdatePage(i: nat)
      requires Stored() && i < |pages|
      modifies this`pages
      ensures Stored() && Text() == old(Text())
      ensures pages == old(pages)[i := Plain(old(DataOf(mapping, pages[i])))]
    {
      hide Flat;
      ghost var g, ps := G(), pages;
      var p := pages[i];
      if p.data.Mapped? { p := p.(data := Owned(DataOf(mapping, p))); }
      pages := pages[i := p.(pos := Stale, chars := Stale)];
      PlainOk(g, DataOf(mapping, ps[i]));
      assert pages[..i] == ps[..i] && pages[i + 1..] == ps[i + 1..];
      FlatAt(g, ps, i);
      FlatAt(g, pages, i);
    }

    /** A copy into the data of a page, after update_page. */
    method SetPage(i: nat, bytes: seq<byte>)
      requires Stored() && i < |pages| && 1 <= |bytes| <= MAX_PAGE_SIZE
      requires pages[i].data.Owned? && pages[i].pos.Stale? && pages[i].chars.Stale?
      modifies this`pages
      ensures Stored() && pages == old(pages)[i := Plain(bytes)]
      ensures AllOk(G(), old(pages)[..i]) && AllOk(G(), old(pages)[i + 1..])
      ensures Text() == Flat(G(), old(pages)[..i]) + bytes + Flat(G(), old(pages)[i + 1..])
    {
      hide Flat;
      ghost var g := G();
      PlainOk(g, bytes);
      pages := pages[i := pages[i].(size := |bytes|, data := Owned(bytes))];
      assert pages[..i] == old(pages)[..i] && pages[i + 1..] == old(pages)[i + 1..];
      FlatAt(g, pages, i);
    }

    /** eb_read. */
    method Read(offset: int, size: int) returns (buf: seq<byte>)
      requires Valid()
      modifies this`curPage, this`curOffset
      ensures Valid() && buf == Window(Text(), offset, size)
    {
      hide Flat, PageOk;
      FlatSize(G(), pages);
      if offset < 0 || size <= 0 || offset >= totalSize { return []; }
      var want := Min(size, totalSize - offset);
      var p, po := FindPage(offset);
      buf := Gather(mapping, coding, pages, p, po, want);
    }

    /** The page loop of eb_write. */
    method WriteRaw(offset: nat, buf: seq<byte>)
      requires Valid() && 0 < |buf| && offset + |buf| <= totalSize
      modifies this`pages, this`curPage, this`curOffset
      ensures Valid() && |old(Text())| == totalSize && Text() == Overwritten(old(Text()), offset, buf)
    {
      hide Flat, PageOk, Overwritten;
      ghost var g, t := G(), Text();
      FlatSize(g, pages);
      var p: nat, po: nat := FindPage(offset);
      var remain := |buf|;
      OverwriteNothing(t, offset, buf);
      while true
        invariant Valid() && g == G() && |t| == totalSize
        invariant 0 < remain <= |buf| && p < |pages| && po < pages[p].size
        invariant Size(pages[..p]) + po == offset + |buf| - remain
        invariant Text() == Overwritten(t, offset, buf[..|buf| - remain])
        decreases remain
      {
        var done := |buf| - remain;
        var len := Min(pages[p].size - po, remain);
        Patch(p, po, buf[done..done + len]);
        OverwriteMore(t, offset, buf, done, len);
        remain := remain - len;
        if remain <= 0 { break; }
        NextPage(g, pages, p);
        p, po := p + 1, 0;
      }
      assert buf[..|buf|] == buf;
    }

    /** update_page, then a copy inside the page. */
    method Patch(p: nat, po: nat, chunk: seq<byte>)
      requires Valid() && p < |pages| && po + |chunk| <= pages[p].size
      modifies this`pages
      ensures Valid() && SameSizes(pages, old(pages)) && Size(pages[..p]) == Size(old(pages)[..p])
      ensures Size(pages[..p]) + po + |chunk| <= |old(Text())|
      ensures Text() == Overwritten(old(Text()), Size(pages[..p]) + po, chunk)
    {
      hide Flat, PageOk, Overwritten;
      ghost var g, ps := G(), pages;
      PageFits(g, ps, p);
      UpdatePage(p);
      var data := pages[p].data.bytes;
      var copy := data[..po] + chunk + data[po + |chunk|..];
      SetPage(p, copy);
      Overlaid(g, ps, p, po, chunk, copy);
      SameSizesSize(ps, pages);
      if curPage >= 0 { SameSizesSize(ps[..curPage], pages[..curPage]); }
    }

    /** The first half of eb_insert1: fill up page pi from the front. */
    method Prepend(pi: nat, chunk: seq<byte>)
      requires Stored() && pi < |pages| && pages[pi].size + |chunk| <= MAX_PAGE_SIZE
      modifies this`pages
      ensures Stored() && |pages| == |old(pages)| && pages[..pi] == old(pages)[..pi]
      ensures AllOk(G(), pages[pi..]) && AllOk(G(), old(pages)[pi..])
      ensures Flat(G(), pages[pi..]) == chunk + Flat(G(), old(pages)[pi..])
    {
      hide Flat;
      ghost var g, ps := G(), pages;
      UpdatePage(pi);
      SetPage(pi, chunk + pages[pi].data.bytes);
      HeadPage(g, ps[pi..]);
      HeadPage(g, pages[pi..]);
      assert pages[pi..][1..] == ps[pi..][1..];
    }

    /** The second half of eb_insert1: new pages in front of page pi. */
    method AddPages(pi: nat, buf: seq<byte>)
      requires Stored() && pi <= |pages|
      modifies this`pages
      ensures Stored() && pi <= |pages| && pages[..pi] == old(pages)[..pi]
      ensures AllOk(G(), pages[pi..]) && AllOk(G(), old(pages)[pi..])
      ensures Flat(G(), pages[pi..]) == buf + Flat(G(), old(pages)[pi..])
    {
      hide Flat, PageOk;
      ghost var g, ps := G(), pages;
      AllOkSplit(g, ps, pi);
      var n := (|buf| + MAX_PAGE_SIZE - 1) / MAX_PAGE_SIZE;
      if n > 0 {
        var added := Cut(g, buf, n);
        pages := pages[..pi] + added + pages[pi..];
        Spliced(g, ps, pi, added, pages);
      }
    }

    /** eb_insert1: put bytes at the beginning of page pi, in front of it when
        it is full. */
    method Insert1(pi: nat, buf: seq<byte>)
      requires Stored() && pi <= |pages|
      modifies this`pages
      ensures Stored() && pi <= |pages| && pages[..pi] == old(pages)[..pi]
      ensures AllOk(G(), pages[pi..]) && AllOk(G(), old(pages)[pi..])
      ensures Flat(G(), pages[pi..]) == buf + Flat(G(), old(pages)[pi..])
    {
      hide Flat, PageOk;
      ghost var g := G();
      AllOkSplit(g, pages, pi);
      ghost var rest := Flat(g, pages[pi..]);
      var size := |buf|;
      if pi < |pages| {
        PageFits(g, pages, pi);
        var len := Min(MAX_PAGE_SIZE - pages[pi].size, size);
        if len > 0 {
          Prepend(pi, buf[size - len..size]);
          size := size - len;
        }
      }
      JoinBack(buf, size, rest);
      AllOkSplit(g, pages, pi);
      assert Flat(g, pages[pi..]) == buf[size..] + rest;
      AddPages(pi, buf[..size]);
    }

    /** One turn of the retry loop of eb_insert_lowlevel: move bytes from page
        p to the page before it. Page p is used up, or the place moves to the
        page before, or that page is full now. */
    method ShiftBack(p: nat, po: nat, ghost offset: nat) returns (p1: nat, po1: nat)
      requires Stored() && Spot(pages, p, po, offset) && p > 0 && pages[p - 1].size < MAX_PAGE_SIZE
      modifies this`pages
      ensures Stored() && Text() == old(Text()) && Spot(pages, p1, po1, offset)
      ensures p1 < p || (p1 == p && pages[p - 1].size == MAX_PAGE_SIZE)
    {
      hide Flat, PageOk;
      ghost var g, ps := G(), pages;
      PageFits(g, ps, p - 1);
      PageFits(g, ps, p);
      UpdatePage(p - 1);
      UpdatePage(p);
      var before, here := pages[p - 1].data.bytes, pages[p].data.bytes;
      var chunk := Min(MAX_PAGE_SIZE - |before|, po);
      SetPage(p - 1, before + here[..chunk]);
      if chunk == |here| {
        pages := pages[..p] + pages[p + 1..];
        assert here[..chunk] == here;
        assert pages == ps[..p - 1] + ([Plain(before + here)] + ps[p + 1..]);
        Fused(g, ps, p, pages);
        p1, po1 := p - 1, pages[p - 1].size;
        return;
      }
      SetPage(p, here[chunk..]);
      Shifted(g, ps, p, chunk, pages);
      p1, po1 := p, po - chunk;
      if po1 == 0 && pages[p - 1].size < MAX_PAGE_SIZE {
        p1, po1 := p - 1, pages[p - 1].size;
      }
    }

    /** eb_insert1 behind page p. */
    method PushBehind(p: nat, buf: seq<byte>, ghost pre: seq<Page>, ghost mid: seq<byte>, ghost rest: seq<byte>)
      requires Shape(G(), pages, p, pre, mid, rest)
      modifies this`pages
      ensures Shape(G(), pages, p, pre, mid, buf + rest)
    {
      hide Flat, PageOk, PageBytes;
      ghost var ps := pages;
      Insert1(p + 1, buf);
      SamePrefix(ps, pages, p);
    }

    /** update_page and a copy into page p. */
    method Refill(p: nat, bytes: seq<byte>, ghost pre: seq<Page>, ghost mid: seq<byte>, ghost rest: seq<byte>)
      requires Shape(G(), pages, p, pre, mid, rest) && 1 <= |bytes| <= MAX_PAGE_SIZE
      modifies this`pages
      ensures Shape(G(), pages, p, pre, bytes, rest)
    {
      hide Flat, PageOk;
      ghost var ps := pages;
      UpdatePage(p);
      SetPage(p, bytes);
      assert pages[..p] == ps[..p] && pages[p + 1..] == ps[p + 1..];
    }

    /** The end of eb_insert_lowlevel, at a place inside page p: push the tail
        of the page out, copy what fits, and put the rest in the next pages. */
    method InsertAt(p: nat, po: nat, buf: seq<byte>)
      requires Stored() && p < |pages| && po <= pages[p].size
      modifies this`pages
      ensures Stored() && Size(old(pages)[..p]) + po <= |old(Text())|
      ensures Text() == Inserted(old(Text()), Size(old(pages)[..p]) + po, buf)
    {
      hide Flat, PageOk, Inserted, AllOk, PageBytes, Shape;
      ghost var g, ps, pre := G(), pages, pages[..p];
      PageFits(g, ps, p);
      ShapeOf(g, ps, p);
      var here := DataOf(mapping, pages[p]);
      var len := Min(MAX_PAGE_SIZE - po, |buf|);
      var lenOut := |here| + len - MAX_PAGE_SIZE;
      ghost var rest := Flat(g, ps[p + 1..]);
      if lenOut > 0 {
        PushBehind(p, here[|here| - lenOut..], pre, here, rest);
        rest := here[|here| - lenOut..] + rest;
      } else {
        lenOut := 0;
      }
      var kept := here[..|here| - lenOut];
      var filled := kept[..po] + buf[..len] + kept[po..];
      if len > 0 {
        Refill(p, filled, pre, here, rest);
      } else {
        assert filled == here;
      }
      if |buf| > len {
        PushBehind(p, buf[len..], pre, filled, rest);
        rest := buf[len..] + rest;
      }
      ShapeFlat(g, ps, p, pre, here, Flat(g, ps[p + 1..]));
      ShapeFlat(g, pages, p, pre, filled, rest);
      InsertSum(Flat(g, pre), here, Flat(g, ps[p + 1..]), po, buf, len, lenOut);
    }

    /** The retry loop of eb_insert_lowlevel: look for a place with no room
        left in the page before. */
    method Settle(page: nat, pageOffset: nat, size: nat, ghost offset: nat) returns (p: nat, po: nat)
      requires Stored() && Spot(pages, page, pageOffset, offset)
      modifies this`pages
      ensures Stored() && Text() == old(Text()) && Spot(pages, p, po, offset)
    {
      hide Flat, PageOk, Spot;
      p, po := page, pageOffset;
      while true
        invariant Stored() && Text() == old(Text()) && Spot(pages, p, po, offset)
        decreases p, if p > 0 && p <= |pages| && pages[p - 1].size < MAX_PAGE_SIZE then 1 else 0
      {
        SpotIn(pages, p, po, offset);
        var len := Min(MAX_PAGE_SIZE - po, size);
        var lenOut := pages[p].size + len - MAX_PAGE_SIZE;
        if lenOut <= 0 || p == 0 || pages[p - 1].size >= MAX_PAGE_SIZE { break; }
        p, po := ShiftBack(p, po, offset);
        SpotIn(pages, p, po, offset);
      }
    }

    /** eb_insert_lowlevel. */
    method InsertLowlevel(offset: nat, buf: seq<byte>)
      requires Valid() && offset <= totalSize
      modifies this`pages, this`totalSize, this`curPage, this`curOffset
      ensures Valid() && offset <= |old(Text())| && Text() == Inserted(old(Text()), offset, buf)
      ensures totalSize == old(totalSize) + |buf|
    {
      hide Flat, PageOk, Inserted;
      ghost var g, t := G(), Text();
      FlatSize(g, pages);
      totalSize := totalSize + |buf|;
      if offset > 0 {
        var p, po := FindPage(offset - 1);
        p, po := Settle(p, po + 1, |buf|, offset);
        InsertAt(p, po, buf);
      } else {
        InsertFront(t, buf);
        if |buf| > 0 {
          FlatSplit(g, pages, 0);
          Insert1(0, buf);
          assert pages[0..] == pages && old(pages)[0..] == old(pages);
        }
      }
      curPage := -1;
      FlatSize(g, pages);
    }

    /** The page loop of eb_insert_buffer. */
    method InsertFrom(offset: nat, src: PagedBuffer, from: nat, size: nat)
      requires Valid() && src.Valid() && src != this && offset <= totalSize && size > 0 && from + size <= src.totalSize
      modifies this`pages, this`totalSize, this`curPage, this`curOffset, src`curPage, src`curOffset
      ensures Valid() && src.Valid() && offset <= |old(Text())| && from + size <= |src.Text()|
      ensures Text() == Inserted(old(Text()), offset, src.Text()[from..from + size])
      ensures totalSize == old(totalSize) + size
    {
      hide Flat, PageOk, Inserted;
      ghost var g, t, st := src.G(), Text(), src.Text();
      FlatSize(G(), pages);
      FlatSize(g, src.pages);
      var p: nat, po: nat := src.FindPage(from);
      var left, at := size, offset;
      InsertFrom0(t, offset, st, from);
      while left > 0
        invariant Valid() && src.Valid() && src.G() == g && 0 <= left <= size && at == offset + size - left
        invariant totalSize == old(totalSize) + size - left
        invariant left > 0 ==> p < |src.pages| && po < src.pages[p].size && Size(src.pages[..p]) + po == from + size - left
        invariant Text() == Inserted(t, offset, st[from..from + size - left])
        decreases left
      {
        var len := Min(src.pages[p].size - po, left);
        PageFits(g, src.pages, p);
        GatherStep(g, src.pages, p, po, len, from);
        var chunk := DataOf(src.mapping, src.pages[p])[po..po + len];
        InsertTwice(t, offset, st[from..from + size - left], chunk);
        InsertLowlevel(at, chunk);
        at, left := at + len, left - len;
        if left > 0 { NextPage(g, src.pages, p); }
        p, po := p + 1, 0;
      }
    }

    /** Cut len bytes out of page p, not all of them. */
    method ClipPage(p: nat, po: nat, len: nat, ghost d: nat, ghost n: nat, ghost offset: nat, ghost t: seq<byte>, ghost done: nat)
      requires Stored() && p == d + n < |pages| && po + len <= pages[p].size && len < pages[p].size && Size(pages[..d]) + po == offset
      requires offset + done + len <= |t| && Live(G(), pages, d, n) == Deleted(t, offset, done)
      modifies this`pages
      ensures Stored() && |pages| == |old(pages)| && Live(G(), pages, d, n) == Deleted(t, offset, done + len)
      ensures pages[..p] == old(pages)[..p] && pages[p].size == old(pages)[p].size - len
    {
      hide Flat, PageOk, Deleted, Live;
      ghost var g, ps := G(), pages;
      PageFits(g, pages, p);
      UpdatePage(p);
      var data := pages[p].data.bytes;
      SetPage(p, data[..po] + data[po + len..]);
      assert pages == ps[p := Plain(data[..po] + data[po + len..])];
      Clipped(g, ps, pages, d, n, po, len, offset, t, done);
    }

    /** One turn of the page loop of eb_delete: a page deleted whole stays in
        the table until the end, another one is cut. */
    method DeleteStep(p: nat, po: nat, n: nat, delStart: int, left: nat, ghost offset: nat, ghost t: seq<byte>, ghost done: nat)
        returns (p1: nat, po1: nat, n1: nat, delStart1: int, left1: nat)
      requires Stored() && left > 0 && Deleting(pages, p, po, n, delStart, left, offset) && offset + done + left <= |t|
      requires Live(G(), pages, Start(n, delStart, p), n) == Deleted(t, offset, done)
      modifies this`pages
      ensures Stored() && left1 < left && Deleting(pages, p1, po1, n1, delStart1, left1, offset)
      ensures Live(G(), pages, Start(n1, delStart1, p1), n1) == Deleted(t, offset, done + left - left1)
    {
      hide Flat, PageOk, Deleted, Live, AllOk;
      ghost var g, d := G(), Start(n, delStart, p);
      PageFits(g, pages, p);
      p1, po1, n1, delStart1 := p, po, n, delStart;
      var len := Min(pages[p].size - po, left);
      left1 := left - len;
      if len == pages[p].size {
        Dropped(g, pages, d, n, offset, t, done);
        if n == 0 { delStart1 := p; }
        p1, po1, n1 := p + 1, 0, n + 1;
      } else {
        ClipPage(p, po, len, d, n, offset, t, done);
        po1 := po + len;
        if po1 >= pages[p].size {
          SizeTake(pages, p);
          if n == 0 { LiveWhole(g, pages, p); LiveWhole(g, pages, p + 1); }
          p1, po1 := p + 1, 0;
        }
      }
      LiveSize(g, pages, Start(n1, delStart1, p1), n1);
    }

    /** The page loop of eb_delete. */
    method DeleteRaw(offset: nat, size: nat)
      requires Valid() && size > 0 && offset + size <= totalSize
      modifies this`pages, this`totalSize, this`curPage, this`curOffset
      ensures Valid() && offset + size <= |old(Text())| && Text() == Deleted(old(Text()), offset, size)
      ensures totalSize == old(totalSize) - size
    {
      hide Flat, PageOk, Deleted, Live, AllOk;
      ghost var g, t := G(), Text();
      FlatSize(g, pages);
      totalSize := totalSize - size;
      var p: nat, po: nat := FindPage(offset);
      var n: nat, delStart, left: nat := 0, -1, size;
      DeleteNothing(t, offset);
      LiveWhole(g, pages, p);
      while left > 0
        invariant Stored() && g == G() && left <= size && totalSize == old(totalSize) - size
        invariant Deleting(pages, p, po, n, delStart, left, offset)
        invariant Live(g, pages, Start(n, delStart, p), n) == Deleted(t, offset, size - left)
        decreases left
      {
        p, po, n, delStart, left := DeleteStep(p, po, n, delStart, left, offset, t, size - left);
      }
      Collected(g, pages, Start(n, delStart, p), n);
      if n > 0 {
        pages := pages[..delStart] + pages[delStart + n..];
      }
      curPage := -1;
      FlatSize(g, pages);
    }
  }
}
