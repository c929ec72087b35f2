/** The page table of an edit buffer and the flat text it stands for. */
module Pages {
  import opened Bytes
  import opened Counting

  const MAX_PAGE_SIZE: int := 4096

  /** Page data is a window of the read-only file mapping (PG_READ_ONLY) or
      bytes the page owns. */
  datatype Data = Mapped(start: nat) | Owned(bytes: seq<byte>)

  /** A cached value and its PG_VALID flag. */
  datatype Cache<T> = Stale | Fresh(value: T)

  datatype Page = Page(size: nat, data: Data, pos: Cache<Pos>, chars: Cache<nat>)

  /** What pages are read against: the mapping and the charset. */
  datatype Ground = Ground(file: seq<byte>, coding: Coding)

  /** The data pointer of a page covers its size. */
  predicate Backed(file: seq<byte>, p: Page) {
    match p.data
    case Mapped(start) => start + p.size <= |file|
    case Owned(bytes) => |bytes| == p.size
  }

  function PageBytes(file: seq<byte>, p: Page): (s: seq<byte>)
    requires Backed(file, p)
    ensures |s| == p.size
  {
    match p.data
    case Mapped(start) => file[start..start + p.size]
    case Owned(bytes) => bytes
  }

  predicate PageOk(g: Ground, p: Page) {
    && 1 <= p.size <= MAX_PAGE_SIZE
    && Backed(g.file, p)
    && (p.pos.Fresh? ==> p.pos.value == PosOf(g.coding, PageBytes(g.file, p)))
    && (p.chars.Fresh? ==> p.chars.value == Chars(g.coding, PageBytes(g.file, p)))
  }

  predicate AllOk(g: Ground, ps: seq<Page>) {
    forall i :: 0 <= i < |ps| ==> PageOk(g, ps[i])
  }

  lemma PageFits(g: Ground, ps: seq<Page>, i: nat)
    requires AllOk(g, ps) && i < |ps|
    ensures 1 <= ps[i].size <= MAX_PAGE_SIZE && Backed(g.file, ps[i])
  {
  }

  /** The text of a page table. */
  function Flat(g: Ground, ps: seq<Page>): (s: seq<byte>)
    requires AllOk(g, ps)
  {
    if ps == [] then [] else PageBytes(g.file, ps[0]) + Flat(g, ps[1..])
  }

  function Size(ps: seq<Page>): (n: nat) {
    if ps == [] then 0 else ps[0].size + Size(ps[1..])
  }

  /** A page that owns its bytes and has no cached counts. */
  function Plain(bytes: seq<byte>): Page {
    Page(|bytes|, Owned(bytes), Stale, Stale)
  }

  lemma PlainOk(g: Ground, bytes: seq<byte>)
    requires 1 <= |bytes| <= MAX_PAGE_SIZE
    ensures PageOk(g, Plain(bytes)) && PageBytes(g.file, Plain(bytes)) == bytes
  {
  }

  lemma {:induction false} FlatSize(g: Ground, ps: seq<Page>)
    requires AllOk(g, ps)
    ensures |Flat(g, ps)| == Size(ps)
  {
    if ps != [] { FlatSize(g, ps[1..]); }
  }

  lemma {:induction false} FlatConcat(g: Ground, ps: seq<Page>, qs: seq<Page>)
    requires AllOk(g, ps) && AllOk(g, qs)
    ensures AllOk(g, ps + qs) && Flat(g, ps + qs) == Flat(g, ps) + Flat(g, qs)
  {
    if ps == [] {
      assert ps + qs == qs;
    } else {
      assert (ps + qs)[1..] == ps[1..] + qs;
      FlatConcat(g, ps[1..], qs);
    }
  }

  lemma FlatOne(g: Ground, p: Page)
    requires PageOk(g, p)
    ensures AllOk(g, [p]) && Flat(g, [p]) == PageBytes(g.file, p)
  {
    assert Flat(g, [p][1..]) == [];
  }

  lemma {:induction false} SizeConcat(ps: seq<Page>, qs: seq<Page>)
    ensures Size(ps + qs) == Size(ps) + Size(qs)
  {
    if ps == [] {
      assert ps + qs == qs;
    } else {
      assert (ps + qs)[1..] == ps[1..] + qs;
      SizeConcat(ps[1..], qs);
    }
  }

  lemma SizeTake(ps: seq<Page>, i: nat)
    requires i < |ps|
    ensures Size(ps[..i + 1]) == Size(ps[..i]) + ps[i].size
    ensures Size(ps) == Size(ps[..i + 1]) + Size(ps[i + 1..])
    ensures i + 1 == |ps| ==> Size(ps) == Size(ps[..i + 1])
  {
    assert ps[..i + 1] == ps[..i] + [ps[i]];
    assert ps == ps[..i + 1] + ps[i + 1..];
    SizeConcat(ps[..i], [ps[i]]);
    SizeConcat(ps[..i + 1], ps[i + 1..]);
    assert Size([ps[i]]) == ps[i].size + Size([]);
  }

  /** The text before, in and after page i. */
  lemma FlatAt(g: Ground, ps: seq<Page>, i: nat)
    requires AllOk(g, ps) && i < |ps|
    ensures AllOk(g, ps[..i]) && AllOk(g, ps[i + 1..]) && |Flat(g, ps[..i])| == Size(ps[..i])
    ensures Flat(g, ps) == Flat(g, ps[..i]) + PageBytes(g.file, ps[i]) + Flat(g, ps[i + 1..])
  {
    hide Flat, PageOk;
    assert ps == ps[..i] + ([ps[i]] + ps[i + 1..]);
    FlatOne(g, ps[i]);
    FlatConcat(g, [ps[i]], ps[i + 1..]);
    FlatConcat(g, ps[..i], [ps[i]] + ps[i + 1..]);
    FlatSize(g, ps[..i]);
  }

  lemma FlatSplit(g: Ground, ps: seq<Page>, i: nat)
    requires AllOk(g, ps) && i <= |ps|
    ensures AllOk(g, ps[..i]) && AllOk(g, ps[i..]) && |Flat(g, ps[..i])| == Size(ps[..i])
    ensures Flat(g, ps) == Flat(g, ps[..i]) + Flat(g, ps[i..])
  {
    hide Flat, PageOk;
    assert ps == ps[..i] + ps[i..];
    FlatConcat(g, ps[..i], ps[i..]);
    FlatSize(g, ps[..i]);
  }

  /** A window of one page is a window of the text. */
  lemma PageWindow(g: Ground, ps: seq<Page>, p: nat, from: nat, to: nat)
    requires AllOk(g, ps) && p < |ps| && from <= to <= ps[p].size
    ensures Size(ps[..p]) + to <= |Flat(g, ps)|
    ensures PageBytes(g.file, ps[p])[from..to] == Flat(g, ps)[Size(ps[..p]) + from..Size(ps[..p]) + to]
  {
    hide Flat, PageOk, PageBytes;
    FlatAt(g, ps, p);
  }

  /** Page tables with the same page boundaries. */
  predicate SameSizes(ps: seq<Page>, qs: seq<Page>) {
    |ps| == |qs| && forall i :: 0 <= i < |ps| ==> ps[i].size == qs[i].size
  }

  lemma {:induction false} SameSizesSize(ps: seq<Page>, qs: seq<Page>)
    requires SameSizes(ps, qs)
    ensures Size(ps) == Size(qs)
  {
    if ps != [] { SameSizesSize(ps[1..], qs[1..]); }
  }

  lemma OkAt(g: Ground, ps: seq<Page>, i: nat)
    requires AllOk(g, ps) && i < |ps|
    ensures PageOk(g, ps[i])
  {
  }

  lemma AllOkSplit(g: Ground, ps: seq<Page>, i: nat)
    requires AllOk(g, ps) && i <= |ps|
    ensures AllOk(g, ps[..i]) && AllOk(g, ps[i..])
  {
  }

  lemma HeadPage(g: Ground, ps: seq<Page>)
    requires AllOk(g, ps) && ps != []
    ensures AllOk(g, ps[1..]) && Flat(g, ps) == PageBytes(g.file, ps[0]) + Flat(g, ps[1..])
  {
  }
}
